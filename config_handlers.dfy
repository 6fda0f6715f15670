/** `handlers/config_handlers.py`: creating and deleting groups, adding and
    removing members, assigning the reports recipient.

    Every step takes the text of the message (never empty: Telegram does not
    deliver an empty text message) and requires the caller to be at that
    step, as the router's state filter does. */
module ConfigHandlers {
  import opened Wrappers
  import opened Text
  import opened Tables
  import opened Writes
  import opened Requests
  import opened Invariants
  import opened Messages
  import opened Conversation

  // ---------------------------------------------------------------------------
  // /creategroup
  // ---------------------------------------------------------------------------

  /** `/creategroup` refuses a caller who already owns 25 groups and
      otherwise asks for the name. */
  method CmdCreateGroup(b: Bot, u: int) returns (out: seq<Outbound>)
    requires b.Valid()
    modifies b
    ensures unchanged(b.db)
    ensures b.Valid()
    ensures if u !in b.db.users then out == [] && b.conv == old(b.conv)
            else if |Owned(b.db.groups, u)| == MaxGroups then out == [Answer(TooManyGroupsText)] && b.conv == old(b.conv)
            else out == [Answer(AskGroupNameText)] && b.conv == old(b.conv)[u := CreateGroupNameStep]
  {
    if u !in b.db.users {
      return [];
    }
    CreatorNamesCount(b.db.groups, u);
    if |GroupsWhereCreator(b.db.groups, u)| == MaxGroups {
      return [Answer(TooManyGroupsText)];
    }
    ConvSet(b.conv, b.db.users, b.db.groups, u, CreateGroupNameStep, b.conv[u := CreateGroupNameStep]);
    b.conv := b.conv[u := CreateGroupNameStep];
    out := [Answer(AskGroupNameText)];
  }

  /** The name step: the title-cased name must fit 25 characters and be new
      among the caller's groups; then exactly one group is created, its
      creator its recipient and no members, and the flow ends. */
  method CreateGroupName(b: Bot, u: int, text: string) returns (out: seq<Outbound>)
    requires b.Valid() && u in b.conv && b.conv[u] == CreateGroupNameStep
    modifies b, b.db
    ensures b.Valid()
    ensures var name := Title(text);
            if |name| > MaxNameLength then
              out == [Answer(GroupNameTooLongText)] && b.conv == old(b.conv) && b.db.State() == old(b.db.State())
            else if FindByCreator(old(b.db.groups), u, name).Some? then
              out == [Answer(GroupNameTakenText)] && b.conv == old(b.conv) && b.db.State() == old(b.db.State())
            else
              out == [Answer(GroupCreatedText)] && b.conv == old(b.conv) - {u}
              && b.db.State() == old(b.db.State()).(groups := WithNewGroup(old(b.db.groups), old(b.db.nextId), u, name),
                                                    nextId := old(b.db.nextId) + 1)
  {
    var name := Title(text);
    if |name| > MaxNameLength {
      return [Answer(GroupNameTooLongText)];
    }
    if FindByCreator(b.db.groups, u, name).Some? {
      return [Answer(GroupNameTakenText)];
    }
    ghost var s0 := b.db.State();
    assert FlowOk(s0.users, s0.groups, u, b.conv[u]);
    b.db.CreateGroup(u, name);
    CreateGroupKeepsValid(s0.users, s0.groups, s0.reports, s0.nextId, u, name);
    NewGroupKept(s0.users, s0.groups, s0.nextId, u, name);
    ConvKept(b.conv, s0.users, s0.groups, b.db.users, b.db.groups, u);
    b.Finish(u);
    out := [Answer(GroupCreatedText)];
  }

  // ---------------------------------------------------------------------------
  // /addmembers
  // ---------------------------------------------------------------------------

  method CmdAddMembers(b: Bot, u: int) returns (out: seq<Outbound>)
    requires b.Valid()
    modifies b
    ensures unchanged(b.db)
    ensures b.Valid()
    ensures if u !in b.db.users then out == [] && b.conv == old(b.conv)
            else if Owned(b.db.groups, u) == [] then out == [Answer(NoGroupToFillText)] && b.conv == old(b.conv)
            else out == [Menu(ChooseGroupText, GroupsWhereCreator(b.db.groups, u))]
                 && b.conv == old(b.conv)[u := AddMembersGroupStep]
  {
    out := OpenOwnerFlow(b, u, NoGroupToFillText, AddMembersGroupStep);
  }

  /** The group step: an unknown name is refused; a group already holding
      25 names ends the flow; otherwise the member step opens for it. */
  method AddMembersGroup(b: Bot, u: int, text: string) returns (out: seq<Outbound>)
    requires b.Valid() && u in b.conv && b.conv[u] == AddMembersGroupStep
    modifies b
    ensures unchanged(b.db)
    ensures b.Valid()
    ensures var name := Title(text);
            var found := FindByCreator(b.db.groups, u, name);
            if found.None? then out == [Answer(UnknownGroupText)] && b.conv == old(b.conv)
            else if |Members(found.value.members)| == MaxMembers then
              out == [Answer(GroupFullText)] && b.conv == old(b.conv) - {u}
            else out == [Menu(AskMembersText, [StopWord])] && b.conv == old(b.conv)[u := AddMembersNamesStep(name)]
  {
    var name := Title(text);
    var found := FindByCreator(b.db.groups, u, name);
    if found.None? {
      return [Answer(UnknownGroupText)];
    }
    var names := Split(found.value.members, Sep);
    RawSplit(found.value.members);
    if |names| == MaxMembers {
      b.Finish(u);
      return [Answer(GroupFullText)];
    }
    GroupFound(b.db.users, b.db.groups, b.db.reports, b.db.nextId, u, name);
    ConvSet(b.conv, b.db.users, b.db.groups, u, AddMembersNamesStep(name), b.conv[u := AddMembersNamesStep(name)]);
    b.conv := b.conv[u := AddMembersNamesStep(name)];
    out := [Menu(AskMembersText, [StopWord])];
  }

  /** A group found in valid tables is a good row. */
  lemma GroupFound(users: map<int, User>, groups: seq<Group>, reports: seq<Report>, nextId: int, u: int, name: string)
    requires TablesValid(users, groups, reports, nextId) && FindByCreator(groups, u, name).Some?
    ensures GroupOk(users, FindByCreator(groups, u, name).value, nextId)
  {
    var g := FindByCreator(groups, u, name).value;
    var j :| 0 <= j < |groups| && groups[j] == g;
    assert GroupOk(users, groups[j], nextId);
  }

  /** The member step. A name over 25 characters or already listed is
      refused; "Стоп" ends the flow; a name holding the list separator is
      refused (the corrected step, see AddMemberSplitsName); any other name
      is appended, and the flow ends when the group reaches 25 names. */
  method AddMembersMember(b: Bot, u: int, text: string) returns (out: seq<Outbound>)
    requires b.Valid() && u in b.conv && b.conv[u].AddMembersNamesStep? && text != ""
    requires FindByCreator(b.db.groups, u, b.conv[u].group).Some?
    modifies b, b.db
    ensures b.Valid()
    ensures var group := old(b.conv[u].group);
            var stored := FindByCreator(old(b.db.groups), u, group).value.members;
            var member := Title(text);
            if |member| > MaxNameLength then
              out == [Answer(MemberTooLongText)] && b.conv == old(b.conv) && b.db.State() == old(b.db.State())
            else if member in Split(stored, Sep) then
              out == [Answer(MemberPresentText)] && b.conv == old(b.conv) && b.db.State() == old(b.db.State())
            else if member == StopWord then
              out == [Answer(AddingDoneText)] && b.conv == old(b.conv) - {u} && b.db.State() == old(b.db.State())
            else if !Storable(member) then
              out == [Answer(MemberUnstorableText)] && b.conv == old(b.conv) && b.db.State() == old(b.db.State())
            else
              b.db.State() == old(b.db.State()).(groups := UpdateWhere(old(b.db.groups), u, group,
                                                   SetMembers(AppendMember(stored, member))))
              && Members(AppendMember(stored, member)) == Members(stored) + [member]
              && if |Members(stored)| + 1 == MaxMembers then
                   out == [Answer(MemberAddedText), Answer(GroupFullText)] && b.conv == old(b.conv) - {u}
                 else
                   out == [Answer(MemberAddedText)] && b.conv == old(b.conv)
  {
    var group := b.conv[u].group;
    var stored := FindByCreator(b.db.groups, u, group).value.members;
    var names := Split(stored, Sep);
    var member := Title(text);
    TitleIdempotent(text);
    if |member| > MaxNameLength {
      return [Answer(MemberTooLongText)];
    }
    if member in names {
      return [Answer(MemberPresentText)];
    }
    if member == StopWord {
      b.Finish(u);
      return [Answer(AddingDoneText)];
    }
    if !Storable(member) {
      return [Answer(MemberUnstorableText)];
    }
    RawSplit(stored);
    out := AppendAndReply(b, u, group, member);
  }

  /** The member step as written lets through a name holding the list
      separator: "a;\nb" is title-cased to "A;\nB", is short, absent and not
      "Стоп", and once appended it reads back as two members. */
  lemma AddMemberSplitsName()
    ensures var member := Title("a;\nb");
            member == "A;\nB" && |member| <= MaxNameLength && member != StopWord
            && member !in Split("", Sep)
            && Members(AppendMember("", member)) == ["A", "B"]
  {
    var member := "A;\nB";
    assert "a;\nb" == "a" + ";\nb";
    assert TitleFrom(";\nb", true) == ";" + TitleFrom("\nb", false);
    assert TitleFrom("\nb", false) == "\n" + TitleFrom("b", false);
    assert Title("a;\nb") == member;
    assert Members("") + [member] == [member];
    assert AppendMember("", member) == member;
    assert GoodSep(Sep);
    assert member == "A" + Sep + "B";
    ShortNoContains("A", Sep);
    ShortNoContains("B", Sep);
    SplitAppend("A", "B", Sep);
    SplitNoSep("B", Sep);
  }

  /** The write of the member step, for a good name the group lacks. */
  method AppendAndReply(b: Bot, u: int, group: string, member: string) returns (out: seq<Outbound>)
    requires b.Valid() && u in b.conv && b.conv[u] == AddMembersNamesStep(group)
    requires GoodName(member) && member !in Members(FindByCreator(b.db.groups, u, group).value.members)
    modifies b, b.db
    ensures b.Valid()
    ensures var stored := FindByCreator(old(b.db.groups), u, group).value.members;
            b.db.State() == old(b.db.State()).(groups := UpdateWhere(old(b.db.groups), u, group,
                                                 SetMembers(AppendMember(stored, member))))
            && Members(AppendMember(stored, member)) == Members(stored) + [member]
            && if |Members(stored)| + 1 == MaxMembers then
                 out == [Answer(MemberAddedText), Answer(GroupFullText)] && b.conv == old(b.conv) - {u}
               else
                 out == [Answer(MemberAddedText)] && b.conv == old(b.conv)
  {
    var stored := FindByCreator(b.db.groups, u, group).value.members;
    assert FlowOk(b.db.users, b.db.groups, u, b.conv[u]);
    AddMemberKeepsValid(b.db.users, b.db.groups, b.db.reports, b.db.nextId, u, group, member);
    AppendFlows(b.db.users, b.db.groups, b.conv, u, group, member);
    AppendMemberDecodes(stored, member);
    b.db.AddMember(u, group, member);
    out := [Answer(MemberAddedText)];
    if |Members(stored)| + 1 == MaxMembers {
      b.conv := b.conv - {u};
      out := out + [Answer(GroupFullText)];
    }
  }

  /** What the add leaves true of the flows: every other user's
      assumptions, and the caller's while the group stays below 25. */
  lemma AppendFlows(users: map<int, User>, groups: seq<Group>, conv: map<int, Flow>, u: int, group: string,
                    member: string)
    requires FlowsOk(conv, users, groups) && u in conv && conv[u] == AddMembersNamesStep(group)
    requires member != "" && Storable(member)
    ensures var stored := FindByCreator(groups, u, group).value.members;
            var gs := UpdateWhere(groups, u, group, SetMembers(AppendMember(stored, member)));
            if |Members(stored)| + 1 == MaxMembers then FlowsOk(conv - {u}, users, gs)
            else FlowsOk(conv, users, gs)
  {
    assert FlowOk(users, groups, u, conv[u]);
    var stored := FindByCreator(groups, u, group).value.members;
    var gs := UpdateWhere(groups, u, group, SetMembers(AppendMember(stored, member)));
    UpdateKept(users, groups, u, group, SetMembers(AppendMember(stored, member)));
    ConvKept(conv, users, groups, users, gs, u);
    if |Members(stored)| + 1 == MaxMembers {
      ConvEnd(conv, users, gs, u, conv - {u});
    } else {
      AddMemberFlowOk(users, groups, u, group, member);
      ConvSet(conv, users, gs, u, conv[u], conv);
    }
  }

  /** After an add that leaves the group below 25 names, the member step
      may go on. */
  lemma AddMemberFlowOk(users: map<int, User>, groups: seq<Group>, u: int, group: string, member: string)
    requires u in users && FindByCreator(groups, u, group).Some?
    requires member != "" && Storable(member)
    requires |Members(FindByCreator(groups, u, group).value.members)| + 1 < MaxMembers
    ensures var stored := FindByCreator(groups, u, group).value.members;
            FlowOk(users, UpdateWhere(groups, u, group, SetMembers(AppendMember(stored, member))), u,
                   AddMembersNamesStep(group))
  {
    var stored := FindByCreator(groups, u, group).value.members;
    UpdateEffect(groups, u, group, SetMembers(AppendMember(stored, member)));
    AppendMemberDecodes(stored, member);
  }

  // ---------------------------------------------------------------------------
  // /deletegroup
  // ---------------------------------------------------------------------------

  method CmdDeleteGroup(b: Bot, u: int) returns (out: seq<Outbound>)
    requires b.Valid()
    modifies b
    ensures unchanged(b.db)
    ensures b.Valid()
    ensures if u !in b.db.users then out == [] && b.conv == old(b.conv)
            else if Owned(b.db.groups, u) == [] then out == [Answer(NoGroupToDeleteText)] && b.conv == old(b.conv)
            else out == [Menu(ChooseGroupText, GroupsWhereCreator(b.db.groups, u))]
                 && b.conv == old(b.conv)[u := DeleteGroupNameStep]
  {
    out := OpenOwnerFlow(b, u, NoGroupToDeleteText, DeleteGroupNameStep);
  }

  /** The group step asks for confirmation of a group the caller owns. */
  method DeleteGroupName(b: Bot, u: int, text: string) returns (out: seq<Outbound>)
    requires b.Valid() && u in b.conv && b.conv[u] == DeleteGroupNameStep
    modifies b
    ensures unchanged(b.db)
    ensures b.Valid()
    ensures var name := Title(text);
            if FindByCreator(b.db.groups, u, name).None? then out == [Answer(UnknownGroupText)] && b.conv == old(b.conv)
            else out == [Menu(ConfirmDeleteText, [DeleteAnswer, CancelAnswer])]
                 && b.conv == old(b.conv)[u := DeleteConfirmStep(name)]
  {
    var name := Title(text);
    if FindByCreator(b.db.groups, u, name).None? {
      return [Answer(UnknownGroupText)];
    }
    ConvSet(b.conv, b.db.users, b.db.groups, u, DeleteConfirmStep(name), b.conv[u := DeleteConfirmStep(name)]);
    b.conv := b.conv[u := DeleteConfirmStep(name)];
    out := [Menu(ConfirmDeleteText, [DeleteAnswer, CancelAnswer])];
  }

  /** The confirmation: only "Удалить" and "Отмена" are accepted and both
      end the flow; "Удалить" deletes the group and, by the cascade, its
      reports. */
  method DeleteGroupConfirmation(b: Bot, u: int, text: string) returns (out: seq<Outbound>)
    requires b.Valid() && u in b.conv && b.conv[u].DeleteConfirmStep?
    requires FindByCreator(b.db.groups, u, b.conv[u].group).Some?
    modifies b, b.db
    ensures b.Valid()
    ensures var answer := Title(text);
            var group := old(b.conv[u].group);
            if answer == DeleteAnswer then
              out == [Answer(GroupDeletedText)] && b.conv == old(b.conv) - {u}
              && b.db.State() == old(b.db.State()).(
                   groups := WithoutGroup(old(b.db.groups), u, group),
                   reports := WithoutReportsOf(old(b.db.reports), FindByCreator(old(b.db.groups), u, group).value.id))
            else if answer == CancelAnswer then
              out == [Answer(DeleteCancelledText)] && b.conv == old(b.conv) - {u} && b.db.State() == old(b.db.State())
            else
              out == [Answer(WrongAnswerText)] && b.conv == old(b.conv) && b.db.State() == old(b.db.State())
  {
    var answer := Title(text);
    if answer != DeleteAnswer && answer != CancelAnswer {
      return [Answer(WrongAnswerText)];
    }
    if answer == DeleteAnswer {
      var group := b.conv[u].group;
      ghost var s0 := b.db.State();
      b.db.DeleteGroup(u, group);
      DeleteKeepsValid(s0.users, s0.groups, s0.reports, s0.nextId, u, group);
      DeleteKept(s0.users, s0.groups, u, group);
      ConvKept(b.conv, s0.users, s0.groups, b.db.users, b.db.groups, u);
      b.Finish(u);
      out := [Answer(GroupDeletedText)];
    } else {
      b.Finish(u);
      out := [Answer(DeleteCancelledText)];
    }
  }

  // ---------------------------------------------------------------------------
  // /removemembers
  // ---------------------------------------------------------------------------

  method CmdRemoveMembers(b: Bot, u: int) returns (out: seq<Outbound>)
    requires b.Valid()
    modifies b
    ensures unchanged(b.db)
    ensures b.Valid()
    ensures if u !in b.db.users then out == [] && b.conv == old(b.conv)
            else if Owned(b.db.groups, u) == [] then out == [Answer(NoGroupToEmptyText)] && b.conv == old(b.conv)
            else out == [Menu(ChooseGroupText, GroupsWhereCreator(b.db.groups, u))]
                 && b.conv == old(b.conv)[u := RemoveMembersGroupStep]
  {
    out := OpenOwnerFlow(b, u, NoGroupToEmptyText, RemoveMembersGroupStep);
  }

  /** The group step: an unknown name is refused; a group with no names
      ends the flow; otherwise its names, sorted, are offered with "Стоп". */
  method RemoveMembersGroup(b: Bot, u: int, text: string) returns (out: seq<Outbound>)
    requires b.Valid() && u in b.conv && b.conv[u] == RemoveMembersGroupStep
    modifies b
    ensures unchanged(b.db)
    ensures b.Valid()
    ensures var name := Title(text);
            var found := FindByCreator(b.db.groups, u, name);
            if found.None? then out == [Answer(UnknownGroupText)] && b.conv == old(b.conv)
            else if Members(found.value.members) == [] then
              out == [Answer(NothingToRemoveText)] && b.conv == old(b.conv) - {u}
            else out == [Menu(ChooseMembersText, SortNames(Members(found.value.members)) + [StopWord])]
                 && b.conv == old(b.conv)[u := RemoveMembersNamesStep(name)]
  {
    var name := Title(text);
    var found := FindByCreator(b.db.groups, u, name);
    if found.None? {
      return [Answer(UnknownGroupText)];
    }
    var names := Split(found.value.members, Sep);
    SplitIsEmptyPiece(found.value.members, Sep);
    if names == [""] {
      b.Finish(u);
      return [Answer(NothingToRemoveText)];
    }
    ConvSet(b.conv, b.db.users, b.db.groups, u, RemoveMembersNamesStep(name), b.conv[u := RemoveMembersNamesStep(name)]);
    b.conv := b.conv[u := RemoveMembersNamesStep(name)];
    out := [Menu(ChooseMembersText, SortNames(names) + [StopWord])];
  }

  /** The member step: "Стоп" ends the flow; a name the group does not list
      is refused; a listed name is removed from the group and from its
      reports, and the flow ends when no name is left. */
  method RemoveMembersMember(b: Bot, u: int, text: string) returns (out: seq<Outbound>)
    requires b.Valid() && u in b.conv && b.conv[u].RemoveMembersNamesStep? && text != ""
    requires FindByCreator(b.db.groups, u, b.conv[u].group).Some?
    modifies b, b.db
    ensures b.Valid()
    ensures var group := old(b.conv[u].group);
            var g := FindByCreator(old(b.db.groups), u, group).value;
            var member := Title(text);
            if member == StopWord then
              out == [Answer(RemovingDoneText)] && b.conv == old(b.conv) - {u} && b.db.State() == old(b.db.State())
            else if member !in Members(g.members) then
              out == [Menu(MemberAbsentText, Split(g.members, Sep) + [StopWord])]
              && b.conv == old(b.conv) && b.db.State() == old(b.db.State())
            else
              b.db.State() == old(b.db.State()).(
                   groups := UpdateWhere(old(b.db.groups), u, group, SetMembers(StripMember(g.members, member))),
                   reports := StripReports(old(b.db.reports), g.id, member))
              && var rest := RemoveFirst(Members(g.members), member);
                 if rest == [] then out == [Answer(GroupEmptiedText)] && b.conv == old(b.conv) - {u}
                 else out == [Menu(MemberRemovedText, SortNames(rest) + [StopWord])] && b.conv == old(b.conv)
  {
    var group := b.conv[u].group;
    var g := FindByCreator(b.db.groups, u, group).value;
    var names := Split(g.members, Sep);
    var member := Title(text);
    TitleIdempotent(text);
    RawSplit(g.members);
    if member != StopWord && member !in names {
      return [Menu(MemberAbsentText, names + [StopWord])];
    }
    if member == StopWord {
      b.Finish(u);
      return [Answer(RemovingDoneText)];
    }
    out := StripAndReply(b, u, group, member);
  }

  /** The write of the member step, for a name the group lists. */
  method StripAndReply(b: Bot, u: int, group: string, member: string) returns (out: seq<Outbound>)
    requires b.Valid() && u in b.conv && b.conv[u] == RemoveMembersNamesStep(group)
    requires member in Members(FindByCreator(b.db.groups, u, group).value.members)
    modifies b, b.db
    ensures b.Valid()
    ensures var g := FindByCreator(old(b.db.groups), u, group).value;
            b.db.State() == old(b.db.State()).(
                 groups := UpdateWhere(old(b.db.groups), u, group, SetMembers(StripMember(g.members, member))),
                 reports := StripReports(old(b.db.reports), g.id, member))
    ensures var rest := RemoveFirst(Members(FindByCreator(old(b.db.groups), u, group).value.members), member);
            if rest == [] then out == [Answer(GroupEmptiedText)] && b.conv == old(b.conv) - {u}
            else out == [Menu(MemberRemovedText, SortNames(rest) + [StopWord])] && b.conv == old(b.conv)
  {
    var g := FindByCreator(b.db.groups, u, group).value;
    var rest := RemoveFirst(Members(g.members), member);
    StripMemberWrite(b, u, group, member);
    out := RemovedReply(b, u, rest);
  }

  /** The reply once a name is gone: the flow ends when no name is left and
      otherwise offers the remaining names again. */
  method RemovedReply(b: Bot, u: int, rest: seq<string>) returns (out: seq<Outbound>)
    requires b.db.Valid() && FlowsOk(b.conv - {u}, b.db.users, b.db.groups) && FlowsOk(b.conv, b.db.users, b.db.groups)
    modifies b
    ensures unchanged(b.db)
    ensures b.Valid()
    ensures if rest == [] then out == [Answer(GroupEmptiedText)] && b.conv == old(b.conv) - {u}
            else out == [Menu(MemberRemovedText, SortNames(rest) + [StopWord])] && b.conv == old(b.conv)
  {
    if rest == [] {
      b.conv := b.conv - {u};
      out := [Answer(GroupEmptiedText)];
    } else {
      out := [Menu(MemberRemovedText, SortNames(rest) + [StopWord])];
    }
  }

  /** The database write of the member step, with what it leaves true of
      the flows whether or not the flow goes on. */
  method StripMemberWrite(b: Bot, u: int, group: string, member: string)
    requires b.Valid() && u in b.conv && b.conv[u] == RemoveMembersNamesStep(group)
    requires member in Members(FindByCreator(b.db.groups, u, group).value.members)
    modifies b.db
    ensures b.db.Valid() && FlowsOk(b.conv - {u}, b.db.users, b.db.groups) && FlowsOk(b.conv, b.db.users, b.db.groups)
    ensures var g := FindByCreator(old(b.db.groups), u, group).value;
            b.db.State() == old(b.db.State()).(
                 groups := UpdateWhere(old(b.db.groups), u, group, SetMembers(StripMember(g.members, member))),
                 reports := StripReports(old(b.db.reports), g.id, member))
  {
    assert FlowOk(b.db.users, b.db.groups, u, b.conv[u]);
    RemoveMemberKeepsValid(b.db.users, b.db.groups, b.db.reports, b.db.nextId, u, group, member);
    StripFlows(b.db.users, b.db.groups, b.conv, u, group, member);
    b.db.RemoveMember(u, group, member);
  }

  /** What the removal leaves true of the flows. */
  lemma StripFlows(users: map<int, User>, groups: seq<Group>, conv: map<int, Flow>, u: int, group: string,
                   member: string)
    requires FlowsOk(conv, users, groups) && u in conv && conv[u] == RemoveMembersNamesStep(group)
    requires member in Split(FindByCreator(groups, u, group).value.members, Sep)
    ensures var g := FindByCreator(groups, u, group).value;
            var gs := UpdateWhere(groups, u, group, SetMembers(StripMember(g.members, member)));
            FlowsOk(conv - {u}, users, gs) && FlowsOk(conv, users, gs)
  {
    assert FlowOk(users, groups, u, conv[u]);
    var g := FindByCreator(groups, u, group).value;
    var gs := UpdateWhere(groups, u, group, SetMembers(StripMember(g.members, member)));
    UpdateKept(users, groups, u, group, SetMembers(StripMember(g.members, member)));
    ConvKept(conv, users, groups, users, gs, u);
    ConvEnd(conv, users, gs, u, conv - {u});
    RemoveMemberFlowOk(users, groups, u, group, StripMember(g.members, member));
    ConvSet(conv, users, gs, u, conv[u], conv);
  }

  /** The group is still found after its list changes. */
  lemma RemoveMemberFlowOk(users: map<int, User>, groups: seq<Group>, u: int, group: string, stored: string)
    requires u in users && FindByCreator(groups, u, group).Some?
    ensures FlowOk(users, UpdateWhere(groups, u, group, SetMembers(stored)), u, RemoveMembersNamesStep(group))
  {
    UpdateEffect(groups, u, group, SetMembers(stored));
  }

  // ---------------------------------------------------------------------------
  // /assignreportsrecipient
  // ---------------------------------------------------------------------------

  method CmdAssignReportsRecipient(b: Bot, u: int) returns (out: seq<Outbound>)
    requires b.Valid()
    modifies b
    ensures unchanged(b.db)
    ensures b.Valid()
    ensures if u !in b.db.users then out == [] && b.conv == old(b.conv)
            else if Owned(b.db.groups, u) == [] then out == [Answer(NoGroupToAssignText)] && b.conv == old(b.conv)
            else out == [Menu(ChooseGroupText, GroupsWhereCreator(b.db.groups, u))]
                 && b.conv == old(b.conv)[u := AssignGroupStep]
  {
    out := OpenOwnerFlow(b, u, NoGroupToAssignText, AssignGroupStep);
  }

  /** The group step looks the name up as typed, without title-casing. */
  method AssignGroupName(b: Bot, u: int, text: string) returns (out: seq<Outbound>)
    requires b.Valid() && u in b.conv && b.conv[u] == AssignGroupStep
    modifies b
    ensures unchanged(b.db)
    ensures b.Valid()
    ensures if FindByCreator(b.db.groups, u, text).None? then out == [Answer(UnknownGroupText)] && b.conv == old(b.conv)
            else out == [Answer(AskRecipientText)] && b.conv == old(b.conv)[u := AssignRecipientStep(text)]
  {
    if FindByCreator(b.db.groups, u, text).None? {
      return [Answer(UnknownGroupText)];
    }
    ConvSet(b.conv, b.db.users, b.db.groups, u, AssignRecipientStep(text), b.conv[u := AssignRecipientStep(text)]);
    b.conv := b.conv[u := AssignRecipientStep(text)];
    out := [Answer(AskRecipientText)];
  }

  /** The shared-user step: a user who never started the bot is refused and
      the step stays open; otherwise only the group's recipient changes and
      the flow ends. */
  method AssignRecipientShared(b: Bot, u: int, shared: int) returns (out: seq<Outbound>)
    requires b.Valid() && u in b.conv && b.conv[u].AssignRecipientStep?
    modifies b, b.db
    ensures b.Valid()
    ensures if shared in old(b.db.users) then
              out == [Answer(RecipientAssignedText)] && b.conv == old(b.conv) - {u}
              && b.db.State() == old(b.db.State()).(
                   groups := UpdateWhere(old(b.db.groups), u, old(b.conv[u].group), SetRecipient(shared)))
            else
              out == [Answer(UnknownRecipientText)] && b.conv == old(b.conv) && b.db.State() == old(b.db.State())
  {
    var group := b.conv[u].group;
    ghost var s0 := b.db.State();
    var ok := b.db.AssignRecipient(u, group, shared);
    if !ok {
      return [Answer(UnknownRecipientText)];
    }
    AssignKeepsValid(s0.users, s0.groups, s0.reports, s0.nextId, u, group, shared);
    UpdateKept(s0.users, s0.groups, u, group, SetRecipient(shared));
    ConvKept(b.conv, s0.users, s0.groups, b.db.users, b.db.groups, u);
    b.Finish(u);
    out := [Answer(RecipientAssignedText)];
  }
}
