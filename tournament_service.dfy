/** The backend's tournament service: creating a tournament from the admin form's
    request, the summaries of stored tournaments, appending an empty knockout
    round, and filling one knockout match with its two players.

    The database is a `TournamentStore` holding the stored tournaments in insertion
    order and the next identity value of the tournament and group tables. */
module TournamentService {
  import opened Wrappers
  import opened Seqs
  import opened Text
  import opened Domain

  /** One group of a creation request; the participant list and the courts may be
      null. */
  datatype GroupRequest = GroupRequest(
    groupNumber: int,
    participants: Option<seq<string>>,
    court1: Option<string>,
    court2: Option<string>)

  /** A creation request; the name, the date and the number of winners may be null. */
  datatype CreateRequest = CreateRequest(
    name: Option<string>,
    date: Option<string>,
    numberOfWinners: Option<int>,
    groups: seq<GroupRequest>)

  /** What the service reports about a stored tournament. */
  datatype Summary = Summary(
    id: int,
    name: string,
    date: string,
    groupCount: int,
    participantCount: int)

  /** Why the service throws `IllegalArgumentException`. */
  datatype Rejection =
    | NameMissing        // null or blank name
    | DateMissing        // null or blank date
    | NoGroups           // no group with participants
    | BadDate            // the date is not an ISO local date
    | UnknownTournament
    | PlayersRequired    // no player count and no two-player group to derive it from
    | TooFewPlayers
    | OddPlayers
    | UnknownGroup
    | EmptyParticipants
    | NotAPair

  /** `isNullOrEmpty`: null, or nothing left after Java's `trim`. */
  predicate NullOrBlank(s: Option<string>) {
    s.None? || JavaTrim(s.value) == []
  }

  /** A court as stored: null when the request's court is null or blank. */
  function CourtOf(court: Option<string>): (r: Option<string>)
    ensures r.None? <==> NullOrBlank(court)
    ensures r.Some? ==> r == court
  {
    if NullOrBlank(court) then None else court
  }

  /** The groups creation keeps: those whose participant list is neither null nor
      empty. */
  predicate HasParticipants(g: GroupRequest) {
    g.participants.Some? && |g.participants.value| > 0
  }

  function NonEmptyGroups(groups: seq<GroupRequest>): seq<GroupRequest> {
    Filter(groups, HasParticipants)
  }

  /** The group stored for a kept request group under the generated id. */
  function StoredGroup(g: GroupRequest, id: int): Group {
    Group(id, g.groupNumber, g.participants.GetOr([]), CourtOf(g.court1), CourtOf(g.court2))
  }

  /** The sum of the participant-list lengths (`mapToInt(size).sum()`). */
  function ParticipantCount(groups: seq<Group>): nat
    decreases |groups|
  {
    if |groups| == 0 then 0
    else ParticipantCount(groups[..|groups| - 1]) + |groups[|groups| - 1].participants|
  }

  /** Counting participants group by group counts every entry of the roster. */
  lemma {:induction false} ParticipantCountIsRosterLength(groups: seq<Group>)
    ensures ParticipantCount(groups) == |Roster(groups)|
    decreases |groups|
  {
    if |groups| > 0 {
      ParticipantCountIsRosterLength(groups[..|groups| - 1]);
    }
  }

  /** The summary of a stored tournament: one count per group and one per entry of
      a participant list. */
  function SummaryOf(t: Tournament): (s: Summary)
    ensures s.id == t.id && s.name == t.name && s.date == t.date
    ensures s.groupCount == |t.groups|
    ensures s.participantCount == |Roster(t.groups)|
  {
    ParticipantCountIsRosterLength(t.groups);
    Summary(t.id, t.name, t.date, |t.groups|, ParticipantCount(t.groups))
  }

  /** The summaries of the tournaments a repository query returned, in its order
      (`getAllTournaments`, `getActiveTournaments`, `getArchivedTournaments`). */
  function Summaries(ts: seq<Tournament>): (r: seq<Summary>)
    ensures |r| == |ts|
    ensures forall k :: 0 <= k < |ts| ==>
      r[k].id == ts[k].id && r[k].name == ts[k].name && r[k].date == ts[k].date
      && r[k].groupCount == |ts[k].groups|
      && r[k].participantCount == |Roster(ts[k].groups)|
    decreases |ts|
  {
    if |ts| == 0 then [] else [SummaryOf(ts[0])] + Summaries(ts[1..])
  }

  /** The number of two-player groups: the knockout matches played so far. */
  function PairCount(groups: seq<Group>): (n: nat)
    ensures n <= |groups|
    ensures n == 0 <==> forall g :: g in groups ==> |g.participants| != 2
  {
    var pairs := Filter(groups, (g: Group) => |g.participants| == 2);
    assert |pairs| > 0 ==> pairs[0] in pairs;
    |pairs|
  }

  /** The number of players of the next round: the request's count, or when it is
      null the number of two-player groups; it must be at least 2 and even. */
  function PlayerCount(groups: seq<Group>, requested: Option<int>): (r: Result<int, Rejection>)
    ensures r == Err(PlayersRequired) <==> requested.None? && PairCount(groups) == 0
    ensures r.Ok? <==> requested.GetOr(PairCount(groups)) >= 2
                       && requested.GetOr(PairCount(groups)) % 2 == 0
    ensures r.Ok? ==> r.value == requested.GetOr(PairCount(groups))
    ensures r == Err(TooFewPlayers) <==>
      (requested.Some? || PairCount(groups) > 0) && requested.GetOr(PairCount(groups)) < 2
    ensures r == Err(OddPlayers) <==>
      requested.GetOr(PairCount(groups)) >= 2 && requested.GetOr(PairCount(groups)) % 2 != 0
  {
    if requested.None? && PairCount(groups) == 0 then Err(PlayersRequired)
    else
      var n := requested.GetOr(PairCount(groups));
      if n < 2 then Err(TooFewPlayers)
      else if n % 2 != 0 then Err(OddPlayers)
      else Ok(n)
  }

  /** The largest group number in use, or 0. */
  function MaxGroupNumber(groups: seq<Group>): (m: int)
    ensures m >= 0
    ensures forall g :: g in groups ==> g.groupNumber <= m
    ensures m == 0 || exists g :: g in groups && g.groupNumber == m
    decreases |groups|
  {
    if |groups| == 0 then 0
    else
      var rest := MaxGroupNumber(groups[1..]);
      assert forall g :: g in groups ==> g == groups[0] || g in groups[1..];
      if groups[0].groupNumber > rest then groups[0].groupNumber else rest
  }

  /** The first number of a new round as the service computes it: one past the
      number of groups. It is above every number in use only when the groups are
      numbered 1, 2, ... in stored order. */
  function NextNumberAsWritten(groups: seq<Group>): (n: int)
    ensures n >= 1
    ensures (forall k :: 0 <= k < |groups| ==> groups[k].groupNumber == k + 1) ==>
      forall g :: g in groups ==> g.groupNumber < n
  {
    |groups| + 1
  }

  /** The first number of a new round: one past the largest number in use. */
  function NextGroupNumber(groups: seq<Group>): (n: int)
    ensures n >= 1
    ensures forall g :: g in groups ==> g.groupNumber < n
  {
    MaxGroupNumber(groups) + 1
  }

  /** An empty knockout match as a new round adds it. */
  function KnockoutSlot(groupNumber: int, id: int): Group {
    Group(id, groupNumber, [], None, None)
  }

  /** A tournament created from a form whose second group was left empty keeps the
      numbers 1 and 3, so the next round starts at 3 as well: two groups share a
      number. */
  lemma NextNumberAsWrittenClashes()
    ensures var request := [
        GroupRequest(1, Some(["Anna", "Bea", "Cleo"]), None, None),
        GroupRequest(2, Some([]), None, None),
        GroupRequest(3, Some(["Dan", "Eva", "Filip"]), None, None)];
      var stored := [StoredGroup(request[0], 1), StoredGroup(request[2], 2)];
      NonEmptyGroups(request) == [request[0], request[2]]
      && KnockoutSlot(NextNumberAsWritten(stored), 3).groupNumber == stored[1].groupNumber
  {
    var request := [
      GroupRequest(1, Some(["Anna", "Bea", "Cleo"]), None, None),
      GroupRequest(2, Some([]), None, None),
      GroupRequest(3, Some(["Dan", "Eva", "Filip"]), None, None)];
    assert request[1..][1..] == [request[2]];
    assert NonEmptyGroups(request[1..][1..]) == [request[2]];
  }

  /** When the numbers in use are exactly 1, 2, ... in stored order, both ways of
      numbering a new round agree. */
  lemma {:induction false} NumberingAgreesWhenConsecutive(groups: seq<Group>)
    requires forall k :: 0 <= k < |groups| ==> groups[k].groupNumber == k + 1
    ensures NextGroupNumber(groups) == NextNumberAsWritten(groups)
  {
    if |groups| > 0 {
      assert groups[|groups| - 1] in groups;
    }
  }

  /** The index of the tournament with this id, or -1 (`findById`). */
  function TournamentIndex(ts: seq<Tournament>, id: int): (a: int)
    ensures -1 <= a < |ts|
    ensures a == -1 <==> forall b :: 0 <= b < |ts| ==> ts[b].id != id
    ensures a >= 0 ==> ts[a].id == id
    decreases |ts|
  {
    if |ts| == 0 then -1
    else if ts[0].id == id then 0
    else
      var a := TournamentIndex(ts[1..], id);
      if a == -1 then -1 else a + 1
  }

  /** Where the group with this id is stored: a tournament index and a group index
      (`groupRepository.findById`). */
  function Locate(ts: seq<Tournament>, groupId: int): (loc: Option<(int, int)>)
    ensures loc.None? <==>
      forall a, i :: 0 <= a < |ts| && 0 <= i < |ts[a].groups| ==> ts[a].groups[i].id != groupId
    ensures loc.Some? ==>
      0 <= loc.value.0 < |ts| && 0 <= loc.value.1 < |ts[loc.value.0].groups|
      && ts[loc.value.0].groups[loc.value.1].id == groupId
    decreases |ts|
  {
    if |ts| == 0 then None
    else
      var i := GroupIndex(ts[0].groups, groupId);
      if i >= 0 then Some((0, i))
      else
        var rest := Locate(ts[1..], groupId);
        if rest.None? then None
        else Some((rest.value.0 + 1, rest.value.1))
  }

  /** The stored tournaments carry positive identity values below the next ones, and
      no two tournaments and no two groups share an id. */
  ghost predicate StoreValid(ts: seq<Tournament>, nextTournamentId: int, nextGroupId: int) {
    && 1 <= nextTournamentId && 1 <= nextGroupId
    && (forall a :: 0 <= a < |ts| ==> 1 <= ts[a].id < nextTournamentId)
    && (forall a, b :: 0 <= a < b < |ts| ==> ts[a].id != ts[b].id)
    && (forall a, i :: 0 <= a < |ts| && 0 <= i < |ts[a].groups| ==>
          1 <= ts[a].groups[i].id < nextGroupId)
    && (forall a, i, b, j ::
          (0 <= a < |ts| && 0 <= i < |ts[a].groups| && 0 <= b < |ts| && 0 <= j < |ts[b].groups|
           && (a != b || i != j)) ==> ts[a].groups[i].id != ts[b].groups[j].id)
  }

  /** Groups numbered in order from a fresh id. */
  ghost predicate FreshIds(groups: seq<Group>, firstId: int) {
    forall k :: 0 <= k < |groups| ==> groups[k].id == firstId + k
  }

  lemma AppendTournamentKeepsValid(ts: seq<Tournament>, nt: int, ng: int, t: Tournament)
    requires StoreValid(ts, nt, ng)
    requires t.id == nt && FreshIds(t.groups, ng)
    ensures StoreValid(ts + [t], nt + 1, ng + |t.groups|)
  {
    var ts' := ts + [t];
    forall a | 0 <= a < |ts'| ensures ts'[a] == if a < |ts| then ts[a] else t {
    }
    forall a, i | 0 <= a < |ts'| && 0 <= i < |ts'[a].groups|
      ensures 1 <= ts'[a].groups[i].id < ng + |t.groups|
    {
    }
    forall a, i, b, j |
      0 <= a < |ts'| && 0 <= i < |ts'[a].groups| && 0 <= b < |ts'| && 0 <= j < |ts'[b].groups|
      && (a != b || i != j)
      ensures ts'[a].groups[i].id != ts'[b].groups[j].id
    {
      if a < |ts| && b < |ts| {
        assert ts[a].groups[i].id != ts[b].groups[j].id;
      }
    }
  }

  lemma AppendGroupsKeepsValid(ts: seq<Tournament>, nt: int, ng: int, a: int, extra: seq<Group>)
    requires StoreValid(ts, nt, ng) && 0 <= a < |ts|
    requires FreshIds(extra, ng)
    ensures StoreValid(ts[a := ts[a].(groups := ts[a].groups + extra)], nt, ng + |extra|)
  {
    var ts' := ts[a := ts[a].(groups := ts[a].groups + extra)];
    forall b, i | 0 <= b < |ts'| && 0 <= i < |ts'[b].groups|
      ensures ng <= ts'[b].groups[i].id <==> b == a && i >= |ts[a].groups|
      ensures 1 <= ts'[b].groups[i].id < ng + |extra|
    {
      if b == a && i >= |ts[a].groups| {
        assert ts'[b].groups[i] == extra[i - |ts[a].groups|];
      } else {
        assert ts'[b].groups[i] == ts[b].groups[i];
      }
    }
  }

  lemma ReplaceGroupKeepsValid(ts: seq<Tournament>, nt: int, ng: int, a: int, i: int, g: Group)
    requires StoreValid(ts, nt, ng) && 0 <= a < |ts| && 0 <= i < |ts[a].groups|
    requires g.id == ts[a].groups[i].id
    ensures StoreValid(ts[a := ts[a].(groups := ts[a].groups[i := g])], nt, ng)
  {
    var ts' := ts[a := ts[a].(groups := ts[a].groups[i := g])];
    forall b, j | 0 <= b < |ts'| && 0 <= j < |ts'[b].groups|
      ensures ts'[b].groups[j].id == ts[b].groups[j].id
    {
    }
  }

  /** Filling a knockout match changes that group's participants and nothing else in
      the store: every other group, every tournament field and the group order stay. */
  lemma UpdateTouchesOneGroup(ts: seq<Tournament>, nt: int, ng: int, groupId: int, p: seq<string>)
    requires StoreValid(ts, nt, ng) && Locate(ts, groupId).Some?
    ensures var (a, i) := Locate(ts, groupId).value;
      var ts' := ts[a := ts[a].(groups := ts[a].groups[i := ts[a].groups[i].(participants := p)])];
      && |ts'| == |ts|
      && (forall b :: 0 <= b < |ts| ==>
            ts'[b].(groups := ts[b].groups) == ts[b] && |ts'[b].groups| == |ts[b].groups|)
      && forall b, j :: 0 <= b < |ts| && 0 <= j < |ts[b].groups| ==>
           ts'[b].groups[j]
             == if ts[b].groups[j].id == groupId then ts[b].groups[j].(participants := p)
                else ts[b].groups[j]
  {
    var (a, i) := Locate(ts, groupId).value;
    var ts' := ts[a := ts[a].(groups := ts[a].groups[i := ts[a].groups[i].(participants := p)])];
    forall b, j | 0 <= b < |ts| && 0 <= j < |ts[b].groups|
      ensures ts'[b].groups[j]
        == if ts[b].groups[j].id == groupId then ts[b].groups[j].(participants := p)
           else ts[b].groups[j]
    {
      if b != a || j != i {
        assert ts[b].groups[j].id != ts[a].groups[i].id;
      }
    }
  }

  /** The groups a creation stores: one per kept request group, in request order,
      under consecutive ids from `firstId`. */
  function StoredGroups(kept: seq<GroupRequest>, firstId: int): seq<Group>
    decreases |kept|
  {
    if |kept| == 0 then []
    else StoredGroups(kept[..|kept| - 1], firstId) + [StoredGroup(kept[|kept| - 1], firstId + |kept| - 1)]
  }

  lemma {:induction false} StoredGroupsAt(kept: seq<GroupRequest>, firstId: int)
    ensures |StoredGroups(kept, firstId)| == |kept|
    ensures forall k :: 0 <= k < |kept| ==> StoredGroups(kept, firstId)[k] == StoredGroup(kept[k], firstId + k)
    decreases |kept|
  {
    if |kept| > 0 {
      StoredGroupsAt(kept[..|kept| - 1], firstId);
    }
  }

  /** The tournament a valid request creates under the given identity values. */
  function NewTournament(request: CreateRequest, id: int, firstGroupId: int): (t: Tournament)
    requires request.name.Some? && request.date.Some?
    ensures t.id == id && !t.archived && t.numberOfWinners == request.numberOfWinners.GetOr(1)
    ensures |t.groups| == |NonEmptyGroups(request.groups)| && FreshIds(t.groups, firstGroupId)
    ensures forall k :: 0 <= k < |t.groups| ==> |t.groups[k].participants| > 0
  {
    var kept := NonEmptyGroups(request.groups);
    StoredGroupsAt(kept, firstGroupId);
    assert forall k :: 0 <= k < |kept| ==> kept[k] in kept;
    Tournament(id, JavaTrim(request.name.value), request.date.value,
               request.numberOfWinners.GetOr(1), false,
               StoredGroups(NonEmptyGroups(request.groups), firstGroupId))
  }

  /** A created tournament holds exactly the request's groups that have participants,
      in request order, each with its requested number and participant list, its
      blank courts cleared, and a fresh id; its summary counts those groups and
      their participants. */
  lemma CreatedGroupsMatchRequest(request: CreateRequest, id: int, firstGroupId: int)
    requires request.name.Some? && request.date.Some?
    ensures var t := NewTournament(request, id, firstGroupId);
      var kept := NonEmptyGroups(request.groups);
      && |t.groups| == |kept| == SummaryOf(t).groupCount
      && FreshIds(t.groups, firstGroupId)
      && (forall k :: 0 <= k < |kept| ==>
            && t.groups[k].groupNumber == kept[k].groupNumber
            && kept[k].participants == Some(t.groups[k].participants)
            && |t.groups[k].participants| > 0
            && (t.groups[k].court1.None? <==> NullOrBlank(kept[k].court1))
            && (t.groups[k].court2.None? <==> NullOrBlank(kept[k].court2)))
      && (forall g :: g in request.groups && HasParticipants(g) <==> g in kept)
  {
    var kept := NonEmptyGroups(request.groups);
    StoredGroupsAt(kept, firstGroupId);
    forall k | 0 <= k < |kept| ensures HasParticipants(kept[k]) {
      assert kept[k] in kept;
    }
  }

  /** `addGroup` for each kept request group in turn. */
  method StoreGroups(kept: seq<GroupRequest>, firstId: int) returns (groups: seq<Group>)
    ensures groups == StoredGroups(kept, firstId)
  {
    groups := [];
    for k := 0 to |kept|
      invariant groups == StoredGroups(kept[..k], firstId)
    {
      StoredGroupsPrefix(kept, k, firstId);
      groups := groups + [StoredGroup(kept[k], firstId + k)];
    }
    assert kept[..|kept|] == kept;
  }

  /** One more kept group adds its stored group under the next id. */
  lemma StoredGroupsPrefix(kept: seq<GroupRequest>, k: int, firstId: int)
    requires 0 <= k < |kept|
    ensures StoredGroups(kept[..k + 1], firstId) == StoredGroups(kept[..k], firstId) + [StoredGroup(kept[k], firstId + k)]
  {
    assert kept[..k + 1][..k] == kept[..k];
  }

  /** The empty knockout matches of a new round: `count` of them, numbered from
      `first`, under consecutive ids from `firstId`. */
  function KnockoutRound(first: int, firstId: int, count: nat): seq<Group>
    decreases count
  {
    if count == 0 then []
    else KnockoutRound(first, firstId, count - 1) + [KnockoutSlot(first + count - 1, firstId + count - 1)]
  }

  /** A new round numbered from any `first` holds `count` empty matches under fresh
      ids, numbered `first`, `first + 1`, ... */
  lemma {:induction false} KnockoutRoundSlots(first: int, firstId: int, count: nat)
    ensures var r := KnockoutRound(first, firstId, count);
      && |r| == count
      && FreshIds(r, firstId)
      && (forall j :: 0 <= j < count ==> r[j].participants == [] && r[j].court1 == r[j].court2 == None)
      && (forall j :: 0 <= j < count ==> r[j].groupNumber == first + j)
    decreases count
  {
    if count > 0 {
      KnockoutRoundSlots(first, firstId, count - 1);
    }
  }

  /** A new round numbered from `NextGroupNumber` holds `count` empty matches with
      fresh ids, whose numbers are all different and above every number in use. */
  lemma {:induction false} KnockoutRoundShape(groups: seq<Group>, firstId: int, count: nat)
    ensures var r := KnockoutRound(NextGroupNumber(groups), firstId, count);
      && |r| == count
      && FreshIds(r, firstId)
      && (forall j :: 0 <= j < count ==> r[j].participants == [] && r[j].court1 == r[j].court2 == None)
      && (forall j :: 0 <= j < count ==> r[j].groupNumber == NextGroupNumber(groups) + j)
      && (forall j, k :: 0 <= j < k < count ==> r[j].groupNumber < r[k].groupNumber)
      && (forall j, g :: 0 <= j < count && g in groups ==> g.groupNumber < r[j].groupNumber)
    decreases count
  {
    if count > 0 {
      KnockoutRoundShape(groups, firstId, count - 1);
    }
  }

  /** Building a round slot by slot. */
  method BuildKnockoutRound(first: int, firstId: int, count: nat) returns (added: seq<Group>)
    ensures added == KnockoutRound(first, firstId, count)
  {
    added := [];
    for k := 0 to count
      invariant added == KnockoutRound(first, firstId, k)
    {
      added := added + [KnockoutSlot(first + k, firstId + k)];
    }
  }

  class TournamentStore {
    var tournaments: seq<Tournament>
    var nextTournamentId: int
    var nextGroupId: int

    ghost predicate Valid()
      reads this
    {
      StoreValid(tournaments, nextTournamentId, nextGroupId)
    }

    constructor()
      ensures tournaments == [] && nextTournamentId == 1 && nextGroupId == 1
      ensures Valid()
    {
      tournaments := [];
      nextTournamentId := 1;
      nextGroupId := 1;
    }

    /** `createTournament`: validate the request, store the tournament with its
        non-empty groups and report its summary. Whether `LocalDate.parse` accepts
        the date is the parameter `dateParses`. */
    method CreateTournament(request: CreateRequest, dateParses: bool)
      returns (outcome: Result<Summary, Rejection>)
      requires Valid()
      modifies this
      ensures Valid()
      ensures NullOrBlank(request.name) ==> outcome == Err(NameMissing)
      ensures !NullOrBlank(request.name) && NullOrBlank(request.date) ==> outcome == Err(DateMissing)
      ensures (!NullOrBlank(request.name) && !NullOrBlank(request.date)
               && NonEmptyGroups(request.groups) == []) ==> outcome == Err(NoGroups)
      ensures outcome.Ok? <==> !NullOrBlank(request.name) && !NullOrBlank(request.date)
                               && NonEmptyGroups(request.groups) != [] && dateParses
      ensures (outcome.Err? && outcome != Err(NameMissing) && outcome != Err(DateMissing)
               && outcome != Err(NoGroups)) ==> outcome == Err(BadDate)
      ensures outcome.Err? ==>
        tournaments == old(tournaments)
        && nextTournamentId == old(nextTournamentId) && nextGroupId == old(nextGroupId)
      ensures outcome.Ok? ==>
        && tournaments == old(tournaments)
                          + [NewTournament(request, old(nextTournamentId), old(nextGroupId))]
        && outcome.value == SummaryOf(NewTournament(request, old(nextTournamentId), old(nextGroupId)))
        && nextTournamentId == old(nextTournamentId) + 1
        && nextGroupId == old(nextGroupId) + |NonEmptyGroups(request.groups)|
    {
      if NullOrBlank(request.name) {
        return Err(NameMissing);
      }
      if NullOrBlank(request.date) {
        return Err(DateMissing);
      }
      var kept := NonEmptyGroups(request.groups);
      if |kept| == 0 {
        return Err(NoGroups);
      }
      if !dateParses {
        return Err(BadDate);
      }
      var t := Save(request);
      outcome := Ok(SummaryOf(t));
    }

    /** Build the tournament of a request that passed the checks, with `addGroup`
        for each kept group, and save it. */
    method Save(request: CreateRequest) returns (t: Tournament)
      requires Valid() && request.name.Some? && request.date.Some?
      modifies this
      ensures Valid()
      ensures t == NewTournament(request, old(nextTournamentId), old(nextGroupId))
      ensures tournaments == old(tournaments) + [t]
      ensures nextTournamentId == old(nextTournamentId) + 1
      ensures nextGroupId == old(nextGroupId) + |NonEmptyGroups(request.groups)|
    {
      var kept := NonEmptyGroups(request.groups);
      var groups := StoreGroups(kept, nextGroupId);
      t := Tournament(nextTournamentId, JavaTrim(request.name.value), request.date.value,
                      request.numberOfWinners.GetOr(1), false, groups);
      StoredGroupsAt(kept, nextGroupId);
      AppendTournamentKeepsValid(tournaments, nextTournamentId, nextGroupId, t);
      tournaments := tournaments + [t];
      nextTournamentId := nextTournamentId + 1;
      nextGroupId := nextGroupId + |groups|;
    }

    /** `createNextRound`: append one empty knockout match per two players of the
        next round, numbered from one past the group count as the service does. */
    method CreateNextRound(tournamentId: int, numberOfPlayers: Option<int>)
      returns (outcome: Result<Tournament, Rejection>)
      requires Valid()
      modifies this
      ensures Valid()
      ensures var a := TournamentIndex(old(tournaments), tournamentId);
        && (a == -1 ==> outcome == Err(UnknownTournament))
        && (a >= 0 && PlayerCount(old(tournaments)[a].groups, numberOfPlayers).Err? ==>
              outcome == Err(PlayerCount(old(tournaments)[a].groups, numberOfPlayers).error))
      ensures outcome.Err? ==>
        tournaments == old(tournaments)
        && nextTournamentId == old(nextTournamentId) && nextGroupId == old(nextGroupId)
      ensures outcome.Ok? ==>
        var a := TournamentIndex(old(tournaments), tournamentId);
        var t := old(tournaments)[a];
        var n := PlayerCount(t.groups, numberOfPlayers).value / 2;
        && a >= 0 && PlayerCount(t.groups, numberOfPlayers).Ok?
        && outcome.value
             == t.(groups := t.groups + KnockoutRound(NextNumberAsWritten(t.groups), old(nextGroupId), n))
        && tournaments == old(tournaments)[a := outcome.value]
        && nextTournamentId == old(nextTournamentId) && nextGroupId == old(nextGroupId) + n
    {
      var a := TournamentIndex(tournaments, tournamentId);
      if a < 0 {
        return Err(UnknownTournament);
      }
      var t := tournaments[a];
      var players := PlayerCount(t.groups, numberOfPlayers);
      if players.Err? {
        return Err(players.error);
      }
      var updated := AppendRound(a, players.value / 2);
      outcome := Ok(updated);
    }

    /** Add `count` empty knockout matches to the tournament at index `a` with
        `addGroup`, numbered from one past the group count, and save it. */
    method AppendRound(a: int, count: nat) returns (updated: Tournament)
      requires Valid() && 0 <= a < |tournaments|
      modifies this
      ensures Valid()
      ensures updated == old(tournaments[a]).(groups := old(tournaments[a]).groups
                 + KnockoutRound(NextNumberAsWritten(old(tournaments[a]).groups), old(nextGroupId), count))
      ensures tournaments == old(tournaments)[a := updated]
      ensures nextTournamentId == old(nextTournamentId) && nextGroupId == old(nextGroupId) + count
    {
      var t := tournaments[a];
      var added := BuildKnockoutRound(NextNumberAsWritten(t.groups), nextGroupId, count);
      KnockoutRoundSlots(NextNumberAsWritten(t.groups), nextGroupId, count);
      AppendGroupsKeepsValid(tournaments, nextTournamentId, nextGroupId, a, added);
      updated := t.(groups := t.groups + added);
      tournaments := tournaments[a := updated];
      nextGroupId := nextGroupId + count;
    }

    /** `updateGroupParticipants`: fill the group with this id with exactly two
        players. */
    method UpdateGroupParticipants(groupId: int, participants: Option<seq<string>>)
      returns (outcome: Result<Group, Rejection>)
      requires Valid()
      modifies this
      ensures Valid()
      ensures nextTournamentId == old(nextTournamentId) && nextGroupId == old(nextGroupId)
      ensures Locate(old(tournaments), groupId).None? ==> outcome == Err(UnknownGroup)
      ensures (Locate(old(tournaments), groupId).Some?
               && (participants.None? || |participants.value| == 0)) ==> outcome == Err(EmptyParticipants)
      ensures (Locate(old(tournaments), groupId).Some? && participants.Some?
               && |participants.value| != 0 && |participants.value| != 2) ==> outcome == Err(NotAPair)
      ensures outcome.Ok? <==> Locate(old(tournaments), groupId).Some? && participants.Some?
                               && |participants.value| == 2
      ensures outcome.Err? ==> tournaments == old(tournaments)
      ensures outcome.Ok? ==>
        var (a, i) := Locate(old(tournaments), groupId).value;
        var ts := old(tournaments);
        && outcome.value == ts[a].groups[i].(participants := participants.value)
        && tournaments == ts[a := ts[a].(groups := ts[a].groups[i := outcome.value])]
    {
      var loc := Locate(tournaments, groupId);
      if loc.None? {
        return Err(UnknownGroup);
      }
      if participants.None? || |participants.value| == 0 {
        return Err(EmptyParticipants);
      }
      if |participants.value| != 2 {
        return Err(NotAPair);
      }
      var (a, i) := loc.value;
      var g := tournaments[a].groups[i].(participants := participants.value);
      ReplaceGroupKeepsValid(tournaments, nextTournamentId, nextGroupId, a, i, g);
      tournaments := tournaments[a := tournaments[a].(groups := tournaments[a].groups[i := g])];
      outcome := Ok(g);
    }
  }
}
