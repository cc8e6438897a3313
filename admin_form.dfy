/** The admin form of the browser client: a newline-separated participant list,
    nine groups of at most five names filled by dragging names from the list or
    from another group, and the creation request the form sends to the backend. */
module AdminForm {
  import opened Wrappers
  import opened Seqs
  import opened Text
  import TournamentService

  const GroupCount := 9
  const GroupCapacity := 5

  /** The nine groups of a fresh form, and their unset court selects. */
  const EmptyGroups: seq<seq<string>> := seq(GroupCount, _ => [])
  const EmptyCourts: seq<(string, string)> := seq(GroupCount, _ => ([], []))

  lemma EmptyGroupsOk()
    ensures GroupsOk(EmptyGroups) && |EmptyCourts| == GroupCount
  {
  }

  /** Where a dragged name comes from: the participant list or a group. */
  datatype Source = FromList | FromGroup(index: int)

  /** The item being dragged (`draggedItem`). */
  datatype Drag = Drag(name: string, source: Source)

  /** What a drop onto a group did. */
  datatype DropOutcome =
    | NoDrag           // nothing was being dragged
    | GroupFull        // the group already had five names (an alert)
    | AlreadyInGroup   // the name is in the group already
    | Moved

  /** Why the form refuses to send (each an alert). */
  datatype FormRejection = ListNotEmpty | NameMissing | DateMissing | NoParticipants

  /** A line JavaScript treats as text after `trim()`: one of its characters is not
      JavaScript whitespace. */
  predicate NotBlank(line: string) {
    exists k :: 0 <= k < |line| && !IsJsSpace(line[k])
  }

  /** `NotBlank` is exactly the truthiness of `line.trim()`. */
  lemma NotBlankIffTrimmed(line: string)
    ensures NotBlank(line) <==> JsTrim(line) != []
  {
    TrimEmptyIffAllSpace(line, IsJsSpace);
  }

  /** `getParticipantArray`: the non-blank lines of the list, in order. */
  function ParticipantArray(list: string): (names: seq<string>)
    ensures forall k :: 0 <= k < |names| ==> NotBlank(names[k]) && '\n' !in names[k]
  {
    var lines := Split(list, '\n');
    var names := Filter(lines, NotBlank);
    assert forall k :: 0 <= k < |names| ==> names[k] in lines;
    names
  }

  /** The list entries `handleRemovePlayer` keeps for `name`: those whose trimmed
      text differs from the trimmed name. */
  function NotNamed(name: string): string -> bool {
    (line: string) => JsTrim(line) != JsTrim(name)
  }

  /** A blank list holds no names. */
  lemma BlankListHasNoNames(list: string)
    requires !NotBlank(list)
    ensures ParticipantArray(list) == []
  {
    var lines := Split(list, '\n');
    SplitChars(list, '\n');
    forall i | 0 <= i < |lines| ensures !NotBlank(lines[i]) {
      forall k | 0 <= k < |lines[i]| ensures IsJsSpace(lines[i][k]) {
        assert lines[i][k] in lines[i];
        assert lines[i][k] in list;
        var j :| 0 <= j < |list| && list[j] == lines[i][k];
      }
    }
    var names := Filter(lines, NotBlank);
    if |names| > 0 {
      assert names[0] in lines;
    }
  }

  /** Reading back a list written as separate non-blank, newline-free lines gives
      those lines. */
  lemma ReadBackLines(lines: seq<string>)
    requires forall k :: 0 <= k < |lines| ==> NotBlank(lines[k]) && '\n' !in lines[k]
    ensures ParticipantArray(Join(lines, '\n')) == lines
  {
    if |lines| == 0 {
      assert Split("", '\n') == [""];
      assert !NotBlank("");
    } else {
      SplitJoin(lines, '\n');
      FilterKeepsAll(lines, NotBlank);
    }
  }

  /** Two lists glued by a newline hold the names of the first, then those of the
      second. */
  lemma GluedReadBack(a: string, b: string)
    ensures ParticipantArray(a + "\n" + b) == ParticipantArray(a) + ParticipantArray(b)
  {
    SplitConcat(a, b, '\n');
    FilterAppend(Split(a, '\n'), Split(b, '\n'), NotBlank);
  }

  /** The list after `handleRemovePlayer(name)`: it holds exactly the earlier names
      whose trimmed text differs from the trimmed name, in their order. */
  function WithoutName(list: string, name: string): (r: string)
    ensures ParticipantArray(r) == Filter(ParticipantArray(list), NotNamed(name))
    ensures forall line :: line in ParticipantArray(r) ==> JsTrim(line) != JsTrim(name)
  {
    var names := ParticipantArray(list);
    var kept := Filter(names, NotNamed(name));
    assert forall k :: 0 <= k < |kept| ==> kept[k] in names;
    ReadBackLines(kept);
    Join(kept, '\n')
  }

  /** `list ? list + "\n" + line : line`: the names of the line follow those of the
      list, so a non-blank, newline-free line becomes exactly the last name. */
  function WithLine(list: string, line: string): (r: string)
    ensures ParticipantArray(r) == ParticipantArray(list) + ParticipantArray(line)
    ensures NotBlank(line) && '\n' !in line ==> ParticipantArray(r) == ParticipantArray(list) + [line]
  {
    ReadBackLine(line);
    if list != [] then
      GluedReadBack(list, line);
      list + "\n" + line
    else
      assert Split("", '\n') == [""];
      assert !NotBlank("");
      line
  }

  /** A single non-blank, newline-free line reads back as that one name. */
  lemma ReadBackLine(line: string)
    ensures NotBlank(line) && '\n' !in line ==> ParticipantArray(line) == [line]
  {
    if NotBlank(line) && '\n' !in line {
      ReadBackLines([line]);
      assert Join([line], '\n') == line;
    }
  }

  /** The list after `handleAddPlayer` with `typed` in the name field: the trimmed
      name becomes the last name, and a blank name adds nothing. */
  function AddedPlayer(list: string, typed: string): (r: string)
    ensures '\n' !in typed ==>
      ParticipantArray(r) == ParticipantArray(list) + (if NotBlank(typed) then [JsTrim(typed)] else [])
  {
    if NotBlank(typed) then
      var t := JsTrim(typed);
      NotBlankIffTrimmed(typed);
      TrimIsInfix(typed, IsJsSpace);
      assert !IsJsSpace(t[0]);
      WithLine(list, t)
    else list
  }

  /** The list after importing a decoded file: the normalised content, on a new line
      when the list has text; a list with text is kept in front, and no carriage
      return enters a list that had none. */
  function ImportText(list: string, content: string): (r: string)
    ensures NotBlank(list) ==> |list| < |r| && r[..|list|] == list
    ensures '\r' !in list ==> '\r' !in r
  {
    var normalised := NormaliseLineEndings(content);
    if NotBlank(list) then
      assert (list + "\n" + normalised)[..|list|] == list;
      list + "\n" + normalised
    else normalised
  }

  /** Importing a file appends the names of its normalised content to the names
      already listed. */
  lemma ImportReadBack(list: string, content: string)
    ensures ParticipantArray(ImportText(list, content))
         == ParticipantArray(list) + ParticipantArray(NormaliseLineEndings(content))
  {
    var normalised := NormaliseLineEndings(content);
    if NotBlank(list) {
      GluedReadBack(list, normalised);
    } else {
      BlankListHasNoNames(list);
    }
  }

  /** Nine groups, none with more than five names or a name twice. */
  ghost predicate GroupsOk(groups: seq<seq<string>>) {
    |groups| == GroupCount
    && forall i :: 0 <= i < |groups| ==> |groups[i]| <= GroupCapacity && NoDup(groups[i])
  }

  /** The groups after a successful drop of `d` onto group `target`: the name leaves
      its source group (a group drag) and joins the end of the target group. */
  function DropGroups(groups: seq<seq<string>>, d: Drag, target: int): (r: seq<seq<string>>)
    requires 0 <= target < |groups|
    requires d.source.FromGroup? ==> 0 <= d.source.index < |groups|
    ensures |r| == |groups|
    ensures d.name in r[target]
    ensures r[target] == (if d.source == FromGroup(target) then Remove(groups[target], d.name)
                          else groups[target]) + [d.name]
    ensures forall i :: 0 <= i < |r| && i != target ==>
      r[i] == (if d.source == FromGroup(i) then Remove(groups[i], d.name) else groups[i])
  {
    var removed := if d.source.FromGroup?
                   then groups[d.source.index := Remove(groups[d.source.index], d.name)]
                   else groups;
    removed[target := removed[target] + [d.name]]
  }

  /** A drop the form lets through (the target has room and lacks the name) keeps
      every group within five names and free of duplicates. */
  lemma DropKeepsGroupsOk(groups: seq<seq<string>>, d: Drag, target: int)
    requires GroupsOk(groups) && 0 <= target < |groups|
    requires d.source.FromGroup? ==> 0 <= d.source.index < |groups|
    requires |groups[target]| < GroupCapacity && d.name !in groups[target]
    ensures GroupsOk(DropGroups(groups, d, target))
  {
    var removed := if d.source.FromGroup?
                   then groups[d.source.index := Remove(groups[d.source.index], d.name)]
                   else groups;
    if d.source.FromGroup? {
      RemoveKeepsNoDup(groups[d.source.index], d.name);
    }
    assert d.name !in removed[target];
    NoDupAppend(removed[target], d.name);
  }

  /** Across all nine groups a drop moves names and never loses or copies one: a
      group drag keeps the multiset of grouped names, a list drag adds the name once. */
  lemma DropKeepsNames(groups: seq<seq<string>>, d: Drag, target: int)
    requires 0 <= target < |groups| && d.name !in groups[target]
    requires d.source.FromGroup? ==>
      0 <= d.source.index < |groups| && d.name in groups[d.source.index]
      && NoDup(groups[d.source.index])
    ensures multiset(Concat(DropGroups(groups, d, target)))
         == multiset(Concat(groups)) + (if d.source.FromList? then multiset{d.name} else multiset{})
  {
    if d.source.FromGroup? {
      var src := d.source.index;
      var moved := groups[src := Remove(groups[src], d.name)];
      assert DropGroups(groups, d, target) == moved[target := moved[target] + [d.name]];
      ConcatRemoveFromPart(groups, src, d.name);
      ConcatAppendToPart(moved, target, d.name);
    } else {
      assert DropGroups(groups, d, target) == groups[target := groups[target] + [d.name]];
      ConcatAppendToPart(groups, target, d.name);
    }
  }

  /** `handleSubmit`'s checks, in order: the list must be empty, a name typed, a
      date chosen and some group filled. */
  function CheckForm(list: string, name: string, date: string, groups: seq<seq<string>>)
    : (c: Check<FormRejection>)
    ensures c.Pass? <==>
      !NotBlank(list) && NotBlank(name) && date != []
      && exists i :: 0 <= i < |groups| && |groups[i]| > 0
    ensures c == Fail(ListNotEmpty) <==> NotBlank(list)
    ensures c == Fail(NameMissing) <==> !NotBlank(list) && !NotBlank(name)
    ensures c == Fail(DateMissing) <==> !NotBlank(list) && NotBlank(name) && date == []
  {
    if NotBlank(list) then Fail(ListNotEmpty)
    else if !NotBlank(name) then Fail(NameMissing)
    else if date == [] then Fail(DateMissing)
    else if forall i :: 0 <= i < |groups| ==> |groups[i]| == 0 then Fail(NoParticipants)
    else Pass
  }

  /** `value || null` for a court select. */
  function CourtValue(court: string): Option<string> {
    if court == [] then None else Some(court)
  }

  /** The request the form sends: the trimmed name, the date, no number of winners,
      and all nine groups numbered from 1 in form order. */
  function Payload(name: string, date: string, groups: seq<seq<string>>, courts: seq<(string, string)>)
    : (p: TournamentService.CreateRequest)
    requires |courts| == |groups|
    ensures p.name == Some(JsTrim(name)) && p.date == Some(date) && p.numberOfWinners.None?
    ensures |p.groups| == |groups|
    ensures forall k :: 0 <= k < |groups| ==>
      && p.groups[k].groupNumber == k + 1 && p.groups[k].participants == Some(groups[k])
      && (p.groups[k].court1.None? <==> courts[k].0 == [])
      && (p.groups[k].court2.None? <==> courts[k].1 == [])
  {
    TournamentService.CreateRequest(
      Some(JsTrim(name)), Some(date), None,
      seq(|groups|, i requires 0 <= i < |groups| =>
        TournamentService.GroupRequest(i + 1, Some(groups[i]), CourtValue(courts[i].0),
                                       CourtValue(courts[i].1))))
  }

  /** A request the form lets through gets past the backend's own checks as long as
      the name and the date survive Java's trim, and the groups the backend keeps
      are the filled form groups, each numbered by its position in the form. */
  lemma PayloadMeetsBackend(name: string, date: string, groups: seq<seq<string>>,
                            courts: seq<(string, string)>)
    requires |courts| == |groups|
    requires CheckForm([], name, date, groups).Pass?
    requires JavaTrim(JsTrim(name)) != [] && JavaTrim(date) != []
    ensures var p := Payload(name, date, groups, courts);
      && !TournamentService.NullOrBlank(p.name) && !TournamentService.NullOrBlank(p.date)
      && TournamentService.NonEmptyGroups(p.groups) != []
      && p.numberOfWinners.None?
      && forall g :: g in TournamentService.NonEmptyGroups(p.groups) ==>
           1 <= g.groupNumber <= |groups| && g.participants == Some(groups[g.groupNumber - 1])
           && |groups[g.groupNumber - 1]| > 0
  {
    var p := Payload(name, date, groups, courts);
    KeptGroupsNumbered(p.groups, groups);
  }

  /** Request groups numbered by position and carrying the form groups: the ones the
      backend keeps are the filled form groups, and there is one when a form group is
      filled. */
  lemma KeptGroupsNumbered(ps: seq<TournamentService.GroupRequest>, groups: seq<seq<string>>)
    requires |ps| == |groups|
    requires forall k :: 0 <= k < |ps| ==> ps[k].groupNumber == k + 1 && ps[k].participants == Some(groups[k])
    ensures (exists i :: 0 <= i < |groups| && |groups[i]| > 0) ==> TournamentService.NonEmptyGroups(ps) != []
    ensures forall g :: g in TournamentService.NonEmptyGroups(ps) ==>
      1 <= g.groupNumber <= |groups| && g.participants == Some(groups[g.groupNumber - 1])
      && |groups[g.groupNumber - 1]| > 0
  {
    var kept := TournamentService.NonEmptyGroups(ps);
    if i :| 0 <= i < |groups| && |groups[i]| > 0 {
      assert ps[i] in ps;
      assert ps[i] in kept;
    }
    forall g | g in kept
      ensures 1 <= g.groupNumber <= |groups| && g.participants == Some(groups[g.groupNumber - 1])
    {
      assert g in ps;
      var k :| 0 <= k < |ps| && ps[k] == g;
    }
  }

  /** A name made of a control character passes the form, whose `trim` keeps it, and
      is rejected by the backend, whose `trim` removes it. */
  lemma NameGapBetweenTrims()
    ensures NotBlank("\U{0001}") && TournamentService.NullOrBlank(Some(JsTrim("\U{0001}")))
  {
    var c := "\U{0001}";
    assert !IsJsSpace(c[0]);
    assert JsTrim(c) == c;
    assert IsJavaSpace(c[0]);
    TrimEmptyIffAllSpace(c, IsJavaSpace);
  }

  /** What a drop onto a group holding `group` does, before anything moves: nothing
      without a drag, an alert on a full group, nothing for a name already there. */
  function DropRefusal(dragged: Option<Drag>, group: seq<string>): (outcome: DropOutcome)
    ensures outcome == NoDrag <==> dragged.None?
    ensures outcome == GroupFull <==> dragged.Some? && |group| >= GroupCapacity
    ensures outcome == AlreadyInGroup <==>
      dragged.Some? && |group| < GroupCapacity && dragged.value.name in group
    ensures outcome == Moved ==> |group| < GroupCapacity && dragged.value.name !in group
  {
    if dragged.None? then NoDrag
    else if |group| >= GroupCapacity then GroupFull
    else if dragged.value.name in group then AlreadyInGroup
    else Moved
  }

  /** What `handleSubmit` sends, or the alert that stops it. */
  function Submission(list: string, name: string, date: string, groups: seq<seq<string>>,
                      courts: seq<(string, string)>)
    : (outcome: Result<TournamentService.CreateRequest, FormRejection>)
    requires |courts| == |groups|
    ensures outcome.Err? <==> CheckForm(list, name, date, groups).Fail?
    ensures outcome.Err? ==> outcome.error == CheckForm(list, name, date, groups).error
    ensures outcome.Ok? ==> outcome.value == Payload(name, date, groups, courts)
  {
    match CheckForm(list, name, date, groups)
    case Fail(e) => Err(e)
    case Pass => Ok(Payload(name, date, groups, courts))
  }

  class FormState {
    var tournamentName: string
    var date: string
    var playerName: string
    var participantList: string
    var groups: seq<seq<string>>
    var courts: seq<(string, string)>
    var dragged: Option<Drag>
    var hasTournament: bool
    var currentTournamentId: Option<int>

    ghost predicate Valid()
      reads this
    {
      GroupsOk(groups) && |courts| == GroupCount
      && (dragged.Some? && dragged.value.source.FromGroup? ==>
            0 <= dragged.value.source.index < GroupCount)
    }

    /** The empty form; whether a tournament is running comes from the backend. */
    constructor(running: Option<int>)
      ensures Valid()
      ensures tournamentName == date == playerName == participantList == []
      ensures groups == EmptyGroups && courts == EmptyCourts
      ensures dragged.None?
      ensures hasTournament == running.Some? && currentTournamentId == running
    {
      tournamentName, date, playerName, participantList := [], [], [], [];
      EmptyGroupsOk();
      groups := EmptyGroups;
      courts := EmptyCourts;
      dragged := None;
      hasTournament := running.Some?;
      currentTournamentId := running;
    }

    /** `handleAddPlayer`: append the trimmed typed name and clear the field; a blank
        name does nothing. */
    method AddPlayer()
      requires Valid()
      modifies this
      ensures Valid()
      ensures participantList == AddedPlayer(old(participantList), old(playerName))
      ensures playerName == if NotBlank(old(playerName)) then [] else old(playerName)
      ensures groups == old(groups) && dragged == old(dragged) && courts == old(courts)
      ensures tournamentName == old(tournamentName) && date == old(date)
      ensures hasTournament == old(hasTournament) && currentTournamentId == old(currentTournamentId)
    {
      var list := AddedPlayer(participantList, playerName);
      var field := if NotBlank(playerName) then [] else playerName;
      participantList, playerName := list, field;
    }

    /** `handleRemovePlayer`: drop every list entry that matches the name once
        trimmed, along with the blank lines. */
    method RemovePlayer(name: string)
      requires Valid()
      modifies this
      ensures Valid()
      ensures participantList == WithoutName(old(participantList), name)
      ensures groups == old(groups) && dragged == old(dragged) && courts == old(courts)
      ensures playerName == old(playerName) && tournamentName == old(tournamentName) && date == old(date)
      ensures hasTournament == old(hasTournament) && currentTournamentId == old(currentTournamentId)
    {
      participantList := WithoutName(participantList, name);
    }

    /** `handleRemoveFromGroup`: take the name out of the group and put it back at the
        end of the list. */
    method RemoveFromGroup(index: int, name: string)
      requires Valid() && 0 <= index < GroupCount
      modifies this
      ensures Valid()
      ensures groups == old(groups)[index := Remove(old(groups)[index], name)]
      ensures name !in groups[index]
      ensures participantList == WithLine(old(participantList), name)
      ensures dragged == old(dragged) && courts == old(courts)
      ensures playerName == old(playerName) && tournamentName == old(tournamentName) && date == old(date)
      ensures hasTournament == old(hasTournament) && currentTournamentId == old(currentTournamentId)
    {
      RemoveKeepsNoDup(groups[index], name);
      RemoveMultiset(groups[index], name);
      assert |multiset(Remove(groups[index], name))| <= |multiset(groups[index])|;
      groups := groups[index := Remove(groups[index], name)];
      participantList := WithLine(participantList, name);
    }

    /** The normalisation and merge `handleFileUpload` applies to a decoded file. */
    method ImportFile(content: string)
      requires Valid()
      modifies this
      ensures Valid()
      ensures participantList == ImportText(old(participantList), content)
      ensures groups == old(groups) && dragged == old(dragged) && courts == old(courts)
      ensures playerName == old(playerName) && tournamentName == old(tournamentName) && date == old(date)
      ensures hasTournament == old(hasTournament) && currentTournamentId == old(currentTournamentId)
    {
      participantList := ImportText(participantList, content);
    }

    /** `handleDragStart`: remember the dragged name unless a tournament is running. */
    method DragStart(name: string, source: Source)
      requires Valid()
      requires source.FromGroup? ==> 0 <= source.index < GroupCount
      modifies this
      ensures Valid()
      ensures dragged == if old(hasTournament) then old(dragged) else Some(Drag(name, source))
      ensures groups == old(groups) && participantList == old(participantList) && courts == old(courts)
      ensures playerName == old(playerName) && tournamentName == old(tournamentName) && date == old(date)
      ensures hasTournament == old(hasTournament) && currentTournamentId == old(currentTournamentId)
    {
      if !hasTournament {
        dragged := Some(Drag(name, source));
      }
    }

    /** `handleDropToGroup`: move the dragged name to the end of the target group
        unless that group is full or holds it already. */
    method DropToGroup(target: int) returns (outcome: DropOutcome)
      requires Valid() && 0 <= target < GroupCount
      modifies this
      ensures Valid()
      ensures outcome == DropRefusal(old(dragged), old(groups)[target])
      ensures outcome != Moved ==>
        groups == old(groups) && participantList == old(participantList) && dragged == old(dragged)
      ensures outcome == Moved ==>
        && groups == DropGroups(old(groups), old(dragged).value, target)
        && participantList == (if old(dragged).value.source.FromList?
                               then WithoutName(old(participantList), old(dragged).value.name)
                               else old(participantList))
        && dragged.None?
      ensures courts == old(courts) && playerName == old(playerName)
      ensures tournamentName == old(tournamentName) && date == old(date)
      ensures hasTournament == old(hasTournament) && currentTournamentId == old(currentTournamentId)
    {
      outcome := DropRefusal(dragged, groups[target]);
      if outcome == Moved {
        if dragged.value.source.FromList? {
          RemovePlayer(dragged.value.name);
        }
        Place(target);
      }
    }

    /** The group change of a drop the form lets through. */
    method Place(target: int)
      requires Valid() && 0 <= target < GroupCount && dragged.Some?
      requires |groups[target]| < GroupCapacity && dragged.value.name !in groups[target]
      modifies this
      ensures Valid()
      ensures groups == DropGroups(old(groups), old(dragged).value, target)
      ensures dragged.None?
      ensures participantList == old(participantList) && courts == old(courts)
      ensures playerName == old(playerName) && tournamentName == old(tournamentName) && date == old(date)
      ensures hasTournament == old(hasTournament) && currentTournamentId == old(currentTournamentId)
    {
      DropKeepsGroupsOk(groups, dragged.value, target);
      groups := DropGroups(groups, dragged.value, target);
      dragged := None;
    }

    /** `handleSubmit`: check the form, send the request and, when the backend
        answers with the new tournament's id, clear the form. `reply` is that id, or
        None when the backend refused (an alert; nothing changes). */
    method Submit(reply: Option<int>) returns (outcome: Result<TournamentService.CreateRequest, FormRejection>)
      requires Valid()
      modifies this
      ensures Valid()
      ensures outcome == Submission(old(participantList), old(tournamentName), old(date), old(groups), old(courts))
      ensures (outcome.Err? || reply.None?) ==>
        tournamentName == old(tournamentName) && date == old(date) && playerName == old(playerName)
        && participantList == old(participantList) && groups == old(groups) && courts == old(courts)
        && hasTournament == old(hasTournament) && currentTournamentId == old(currentTournamentId)
      ensures (outcome.Ok? && reply.Some?) ==>
        tournamentName == date == playerName == participantList == []
        && groups == EmptyGroups && courts == EmptyCourts
        && hasTournament && currentTournamentId == reply
      ensures dragged == old(dragged)
    {
      outcome := Submission(participantList, tournamentName, date, groups, courts);
      if outcome.Ok? && reply.Some? {
        Reset(reply.value);
      }
    }

    /** The form after the backend accepted a tournament with id `id`. */
    method Reset(id: int)
      requires Valid()
      modifies this
      ensures Valid()
      ensures tournamentName == date == playerName == participantList == []
      ensures groups == EmptyGroups && courts == EmptyCourts
      ensures hasTournament && currentTournamentId == Some(id)
      ensures dragged == old(dragged)
    {
      hasTournament := true;
      currentTournamentId := Some(id);
      tournamentName, date, playerName, participantList := [], [], [], [];
      EmptyGroupsOk();
      groups := EmptyGroups;
      courts := EmptyCourts;
    }
  }

  /** Appending a name a duplicate-free group does not hold keeps it duplicate-free. */
  lemma NoDupAppend(group: seq<string>, name: string)
    requires NoDup(group) && name !in group
    ensures NoDup(group + [name])
  {
  }
}
