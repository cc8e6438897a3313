/** The playoff setup of the ongoing-tournament view: for every knockout group that
    has no participants yet, an entry that the organiser fills by double-clicking two
    players, after which the pair is committed to the backend. Creating the next
    knockout round asks the backend for new empty groups and rebuilds the entries.

    The backend calls are parameters: whether the commit of a pair succeeded, and
    the groups the backend answered with when it created the next round (or none
    when it failed). Dialogs are parameters too: the answer to the player-count
    prompt and to the confirmation. */
module PlayoffSetup {
  import opened Wrappers
  import opened Domain
  import opened Standings
  import opened Rounds

  /** One entry of the setup: the two players picked so far and whether the pair
      has been committed. */
  datatype Slot = Slot(player1: Option<string>, player2: Option<string>, filled: bool)

  const Blank := Slot(None, None, false)

  /** JavaScript truthiness of a name that may be null. */
  predicate Truthy(name: Option<string>) {
    name.Some? && name.value != ""
  }

  /** The names an entry holds. */
  function Names(s: Slot): set<string> {
    (if s.player1.Some? then {s.player1.value} else {})
    + (if s.player2.Some? then {s.player2.value} else {})
  }

  /** A committed entry holds two names, an open one no second name, and the two
      names of an entry differ. */
  predicate SlotOk(s: Slot) {
    (s.filled ==> s.player1.Some? && s.player2.Some?)
    && (!s.filled ==> s.player2.None?)
    && (s.player1.Some? && s.player2.Some? ==> s.player1.value != s.player2.value)
  }

  /** Every entry is well formed. */
  predicate AllSlotsOk(setup: map<int, Slot>) {
    forall k :: k in setup ==> SlotOk(setup[k])
  }

  /** No name sits in two entries. */
  predicate PlacedOnce(setup: map<int, Slot>) {
    forall k1, k2, x :: k1 in setup && k2 in setup && x in Names(setup[k1]) && x in Names(setup[k2]) ==> k1 == k2
  }

  /** `name` is already picked for some entry. */
  predicate Placed(setup: map<int, Slot>, name: string) {
    exists k :: k in setup && name in Names(setup[k])
  }

  /** The keys of the entries still waiting for a pair. */
  function OpenKeys(setup: map<int, Slot>): set<int> {
    set k | k in setup && !setup[k].filled
  }

  // ---------------------------------------------------------------------------
  // Building the setup

  /** `m` has an entry exactly for the groups of `groups` without participants,
      and every entry is blank. */
  ghost predicate IsBlankSetupFor(m: map<int, Slot>, groups: seq<Group>) {
    (forall id :: id in m <==> exists g :: g in groups && |g.participants| == 0 && g.id == id)
    && forall id :: id in m ==> m[id] == Blank
  }

  /** A blank entry for every group that has no participants. */
  method BuildEmptySetup(groups: seq<Group>) returns (m: map<int, Slot>)
    ensures IsBlankSetupFor(m, groups)
  {
    m := map[];
    for i := 0 to |groups|
      invariant IsBlankSetupFor(m, groups[..i])
    {
      assert groups[..i + 1] == groups[..i] + [groups[i]];
      if |groups[i].participants| == 0 {
        m := m[groups[i].id := Blank];
      }
    }
    assert groups[..|groups|] == groups;
  }

  /** The blank setup of a list of groups is determined by the groups. */
  lemma BlankSetupUnique(m1: map<int, Slot>, m2: map<int, Slot>, groups: seq<Group>)
    requires IsBlankSetupFor(m1, groups) && IsBlankSetupFor(m2, groups)
    ensures m1 == m2
  {
    forall id ensures id in m1 <==> id in m2 {
    }
    assert m1.Keys == m2.Keys;
    assert forall id :: id in m1 ==> m1[id] == m2[id];
  }

  /** A blank setup has an open entry exactly when some group has no participants. */
  lemma BlankSetupHasOpenSlots(m: map<int, Slot>, groups: seq<Group>)
    requires IsBlankSetupFor(m, groups)
    ensures OpenKeys(m) != {} <==> exists g :: g in groups && |g.participants| == 0
    ensures AllSlotsOk(m) && PlacedOnce(m)
  {
    if g :| g in groups && |g.participants| == 0 {
      assert g.id in OpenKeys(m);
    }
    if OpenKeys(m) != {} {
      HasKey(OpenKeys(m));
      var id :| id in OpenKeys(m);
      assert id in m;
    }
  }

  /** While a blank setup still has an open entry, not every match is reported, so
      the next round cannot be due. */
  lemma OpenSlotBlocksNextRound(m: map<int, Slot>, groups: seq<Group>, results: map<int, seq<MatchResult>>)
    requires IsBlankSetupFor(m, groups) && OpenKeys(m) != {}
    ensures !AllMatchesReported(groups, results)
  {
    BlankSetupHasOpenSlots(m, groups);
  }

  // ---------------------------------------------------------------------------
  // Finding a group by id and choosing the entry to fill

  /** The groups with the participants of the first group with this id replaced;
      unchanged when there is no such group. */
  function SetParticipants(groups: seq<Group>, id: int, ps: seq<string>): (r: seq<Group>)
    ensures |r| == |groups|
    ensures forall k :: 0 <= k < |groups| ==>
      r[k].id == groups[k].id && r[k].groupNumber == groups[k].groupNumber
      && (groups[k].id != id ==> r[k] == groups[k])
    ensures GroupIndex(groups, id) >= 0 ==> r[GroupIndex(groups, id)].participants == ps
    ensures GroupIndex(groups, id) < 0 ==> r == groups
  {
    var i := GroupIndex(groups, id);
    if i < 0 then groups else groups[i := groups[i].(participants := ps)]
  }

  /** Entry `a` comes before entry `b` in the order the entries are tried: the smaller
      group number first and, for equal numbers, the smaller id (the entries are
      listed by ascending integer key, and the sort by group number is stable). */
  predicate Precedes(groups: seq<Group>, a: int, b: int) {
    var i, j := GroupIndex(groups, a), GroupIndex(groups, b);
    i >= 0 && j >= 0
    && (groups[i].groupNumber < groups[j].groupNumber
        || (groups[i].groupNumber == groups[j].groupNumber && a < b))
  }

  /** Sorting the open entries fails when there are at least two of them and one has
      no group: the comparator then reads the group number of an absent group. */
  predicate SortFails(setup: map<int, Slot>, groups: seq<Group>) {
    |OpenKeys(setup)| >= 2 && exists k :: k in OpenKeys(setup) && GroupIndex(groups, k) < 0
  }

  /** `k` is the open entry tried first. */
  predicate ComesFirst(setup: map<int, Slot>, groups: seq<Group>, k: int) {
    k in OpenKeys(setup) && forall k' :: k' in OpenKeys(setup) && k' != k ==> Precedes(groups, k, k')
  }

  /** At most one entry comes first. */
  lemma ComesFirstUnique(setup: map<int, Slot>, groups: seq<Group>, k1: int, k2: int)
    requires ComesFirst(setup, groups, k1) && ComesFirst(setup, groups, k2)
    ensures k1 == k2
  {
  }

  /** The first open entry, as the sorted list of open entries yields it. */
  method FirstOpenSlot(setup: map<int, Slot>, groups: seq<Group>) returns (target: Option<int>)
    requires !SortFails(setup, groups)
    ensures target.None? <==> OpenKeys(setup) == {}
    ensures target.Some? ==> ComesFirst(setup, groups, target.value)
  {
    var open := OpenKeys(setup);
    if open == {} {
      return None;
    }
    HasKey(open);
    var best :| best in open;
    var todo := open - {best};
    if todo == {} {
      assert open == {best};
      return Some(best);
    }
    assert |open| >= 2 by {
      HasKey(todo);
      var other :| other in todo;
      assert {best, other} <= open;
    }
    while todo != {}
      invariant todo <= open && best in open && best !in todo
      invariant forall k :: k in open && k !in todo && k != best ==> Precedes(groups, best, k)
      decreases |todo|
    {
      HasKey(todo);
      var k :| k in todo;
      if Precedes(groups, k, best) {
        best := k;
      }
      todo := todo - {k};
    }
    return Some(best);
  }

  // ---------------------------------------------------------------------------
  // The view's state

  /** The answer to the prompt for the number of advancing players: cancelled or
      empty, or some text that parses to a number or does not. */
  datatype PromptAnswer = Cancelled | Entered(parsed: Option<int>)

  class OngoingTournament {
    var groups: seq<Group>
    var setup: map<int, Slot>
    var readOnly: bool

    /** Every entry is well formed and no player is picked twice. */
    predicate Valid()
      reads this
    {
      AllSlotsOk(setup) && PlacedOnce(setup)
    }

    /** Some entry still waits for its pair. */
    function HasEmptyPlayoffSlots(): bool
      reads this
    {
      exists k :: k in setup && !setup[k].filled
    }

    constructor(groups: seq<Group>, readOnly: bool)
      ensures Valid()
      ensures this.groups == groups && this.readOnly == readOnly && setup == map[]
    {
      this.groups := groups;
      this.readOnly := readOnly;
      setup := map[];
    }

    /** A blank entry for every group without participants; the old setup is kept
        when there is none. */
    method InitializePlayoffSetup(from: seq<Group>)
      requires Valid()
      modifies this
      ensures Valid()
      ensures groups == old(groups) && readOnly == old(readOnly)
      ensures (forall g :: g in from ==> |g.participants| > 0) ==> setup == old(setup)
      ensures (exists g :: g in from && |g.participants| == 0) ==> IsBlankSetupFor(setup, from)
      ensures HasEmptyPlayoffSlots() <==> (exists g :: g in from && |g.participants| == 0) || old(HasEmptyPlayoffSlots())
    {
      var m := BuildEmptySetup(from);
      BlankSetupHasOpenSlots(m, from);
      if |m| > 0 {
        setup := m;
        assert OpenKeys(m) != {} by {
          HasKey(m.Keys);
          var id :| id in m;
          assert id in OpenKeys(m);
        }
      } else {
        assert m == map[];
      }
      OpenKeysMeans(setup);
    }

    /** A double-click on `player`: the first open entry gets the player as its first
        name or, when it has one, as its second, and then the pair is committed.
        `committed` is whether the backend accepted the pair. `target` is the entry
        that was chosen, none when the click is ignored. */
    method PlayerDoubleClick(player: string, committed: bool) returns (target: Option<int>)
      requires Valid()
      modifies this
      ensures Valid()
      ensures readOnly == old(readOnly)
      ensures target.Some? <==>
        !old(readOnly) && !SortFails(old(setup), old(groups))
        && OpenKeys(old(setup)) != {} && !Placed(old(setup), player)
      ensures target.Some? ==> ComesFirst(old(setup), old(groups), target.value)
      ensures target.None? ==> setup == old(setup) && groups == old(groups)
      ensures target.Some? && !Truthy(old(setup)[target.value].player1) ==>
        setup == old(setup)[target.value := old(setup)[target.value].(player1 := Some(player))]
        && groups == old(groups)
      ensures target.Some? && Truthy(old(setup)[target.value].player1) && committed ==>
        setup == old(setup)[target.value := old(setup)[target.value].(player2 := Some(player), filled := true)]
        && groups == SetParticipants(old(groups), target.value, [old(setup)[target.value].player1.value, player])
      ensures target.Some? && Truthy(old(setup)[target.value].player1) && !committed ==>
        setup == old(setup) && groups == old(groups)
    {
      if readOnly {
        return None;
      }
      if SortFails(setup, groups) {
        return None;
      }
      target := FirstOpenSlot(setup, groups);
      if target.None? {
        return None;
      }
      if Placed(setup, player) {
        return None;
      }
      var k := target.value;
      var s := setup[k];
      if !Truthy(s.player1) {
        var s' := s.(player1 := Some(player));
        PickKeepsValid(setup, k, s', player);
        setup := setup[k := s'];
      } else if !Truthy(s.player2) {
        if committed {
          var s' := s.(player2 := Some(player), filled := true);
          PickKeepsValid(setup, k, s', player);
          groups := SetParticipants(groups, k, [s.player1.value, player]);
          setup := setup[k := s'];
        }
      }
    }

    /** Takes the pair out of a knockout group again: the group's participants become
        empty and its entry blank, without a call to the backend. */
    method RemovePlayerFromMatch(groupId: int)
      requires Valid()
      modifies this
      ensures Valid()
      ensures readOnly == old(readOnly)
      ensures groups == SetParticipants(old(groups), groupId, [])
      ensures setup == old(setup)[groupId := Blank]
      ensures HasEmptyPlayoffSlots()
    {
      groups := SetParticipants(groups, groupId, []);
      PickKeepsValid(setup, groupId, Blank, "");
      setup := setup[groupId := Blank];
      assert groupId in setup && !setup[groupId].filled;
    }

    /** Asks the backend for the next knockout round. With no knockout group yet the
        organiser enters the number of advancing players, which must be an even
        number of at least 2; otherwise it is the number of matches of the last
        round. After the confirmation, `reply` is the groups the backend answered
        with, or none when the call failed. `requested` is the number sent to the
        backend, none when nothing was sent. */
    method CreateNextRound(answer: PromptAnswer, confirmed: bool, reply: Option<seq<Group>>)
      returns (requested: Option<int>)
      requires Valid()
      modifies this
      ensures Valid()
      ensures readOnly == old(readOnly)
      ensures |PlayoffGroups(old(groups))| == 0 ==>
        (requested.Some? <==>
          confirmed && answer.Entered? && answer.parsed.Some?
          && answer.parsed.value >= 2 && answer.parsed.value % 2 == 0)
        && (requested.Some? ==> requested == answer.parsed)
      ensures |PlayoffGroups(old(groups))| > 0 ==>
        (requested.Some? <==> confirmed)
        && (requested.Some? ==>
          var sizes := Chunks(|PlayoffGroups(old(groups))|, true);
          requested.value == sizes[|sizes| - 1] && requested.value in {1, 2, 4, 8})
      ensures requested.Some? && reply.Some? ==> groups == reply.value && IsBlankSetupFor(setup, reply.value)
      ensures requested.None? || reply.None? ==> groups == old(groups) && setup == old(setup)
    {
      var rounds := PlayoffRounds(groups);
      var players: int;
      if |rounds| == 0 {
        if answer.Cancelled? {
          return None;
        }
        if answer.parsed.None? || answer.parsed.value < 2 || answer.parsed.value % 2 != 0 {
          return None;
        }
        players := answer.parsed.value;
      } else {
        players := |rounds[|rounds| - 1]|;
        LastRoundSize(groups, rounds);
      }
      if !confirmed {
        return None;
      }
      requested := Some(players);
      if reply.Some? {
        groups := reply.value;
        var m := BuildEmptySetup(reply.value);
        BlankSetupHasOpenSlots(m, reply.value);
        setup := m;
      }
    }
  }

  /** An open entry exists exactly when the open keys are not empty. */
  lemma OpenKeysMeans(setup: map<int, Slot>)
    ensures OpenKeys(setup) != {} <==> exists k :: k in setup && !setup[k].filled
  {
    if k :| k in setup && !setup[k].filled {
      assert k in OpenKeys(setup);
    }
    if OpenKeys(setup) != {} {
      HasKey(OpenKeys(setup));
    }
  }

  /** A non-empty set of keys has a member. */
  lemma HasKey(s: set<int>)
    requires s != {}
    ensures exists k :: k in s
  {
    if forall k :: k !in s {
      assert false;
    }
  }

  /** Replacing one entry by a well-formed one whose names are its old names plus a
      player placed nowhere keeps every entry well formed and every player placed once. */
  lemma PickKeepsValid(setup: map<int, Slot>, k: int, s': Slot, player: string)
    requires AllSlotsOk(setup) && PlacedOnce(setup)
    requires SlotOk(s')
    requires Names(s') <= (if k in setup then Names(setup[k]) else {}) + {player}
    requires player in Names(s') ==> !Placed(setup, player)
    ensures AllSlotsOk(setup[k := s']) && PlacedOnce(setup[k := s'])
  {
    var m := setup[k := s'];
    forall k1, k2, x | k1 in m && k2 in m && x in Names(m[k1]) && x in Names(m[k2])
      ensures k1 == k2
    {
    }
  }

  /** The last round of the cutting has as many matches as the last chunk size. */
  lemma LastRoundSize(groups: seq<Group>, rounds: seq<seq<Group>>)
    requires Sizes(rounds) == Chunks(|PlayoffGroups(groups)|, true) && |rounds| > 0
    ensures var sizes := Chunks(|PlayoffGroups(groups)|, true);
      |rounds[|rounds| - 1]| == sizes[|sizes| - 1] && sizes[|sizes| - 1] in {1, 2, 4, 8}
  {
    SizesIndex(rounds);
    ChunksShape(|PlayoffGroups(groups)|, true);
  }
}
