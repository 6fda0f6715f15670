/** The handlers of `handlers/work_handlers.py`: `/createreport` with its
    keyboard of member buttons, and `/getstatistics`. */
module WorkHandlers {
  import opened Wrappers
  import opened Text
  import opened Dates
  import opened Tables
  import opened Writes
  import opened Requests
  import opened Invariants
  import opened Messages
  import opened Conversation
  import opened Statistics

  // ---------------------------------------------------------------------------
  // The report keyboard
  // ---------------------------------------------------------------------------

  /** `create_report_markup`: one button per name, then the send button. */
  function ReportKeyboard(names: seq<string>): (r: seq<string>)
    ensures |r| == |names| + 1 && r[|names|] == SendButton
    ensures forall k :: 0 <= k < |names| ==> r[k] == EncodeButton(names[k])
  {
    if names == [] then [SendButton] else [EncodeButton(names[0])] + ReportKeyboard(names[1..])
  }

  /** The name a member button stands for, as intended: everything after the
      "r_" prefix, title-cased; data without the prefix names nobody. */
  function MemberOfButton(data: string): (r: Option<string>)
    ensures r.Some? <==> |data| >= 2 && data[..2] == "r_"
  {
    if |data| >= 2 && data[..2] == "r_" then Some(Title(data[2..])) else None
  }

  /** A member button reads back as the name it was made for, and it is
      the send button only for a member called "Отправить". */
  lemma ButtonOfName(name: string)
    ensures MemberOfButton(EncodeButton(name)) == Some(Title(name))
    ensures EncodeButton(name) == SendButton <==> name == "Отправить"
  {
    var d := EncodeButton(name);
    assert d[..2] == "r_" && d[2..] == name;
    assert SendButton == EncodeButton("Отправить");
    if d == SendButton {
      assert name == d[2..] == SendButton[2..] == "Отправить";
    }
  }

  /** Every button of the keyboard but the last names a member. */
  lemma KeyboardDecodes(names: seq<string>, k: nat)
    requires k < |names| && Title(names[k]) == names[k]
    ensures MemberOfButton(ReportKeyboard(names)[k]) == Some(names[k])
    ensures ReportKeyboard(names)[k] == SendButton <==> names[k] == "Отправить"
  {
    ButtonOfName(names[k]);
  }

  /** `data.split("_")[1].title()`, the decoding the handler performs, keeps
      only the part of the name before its first "_". */
  lemma ButtonTruncates(first: string, rest: string)
    requires !Contains(first, "_")
    ensures DecodeButton(EncodeButton(first + "_" + rest)) == Some(Title(first))
  {
    var name := first + "_" + rest;
    assert EncodeButton(name) == "r" + "_" + name;
    ShortNoContains("", "_");
    ContainsCons('r', "", "_");
    assert "r" == ['r'] + "";
    assert "r"[0..1] == "r" && "r" != "_";
    SplitAppend("r", name, "_");
    SplitAppend(first, rest, "_");
  }

  /** A name the bot accepts as a member whose button picks somebody else. */
  lemma ButtonTruncatesExample()
    ensures GoodName("Анна_Мария")
    ensures DecodeButton(EncodeButton("Анна_Мария")) != Some("Анна_Мария")
    ensures MemberOfButton(EncodeButton("Анна_Мария")) == Some("Анна_Мария")
  {
    var name := "Анна_Мария";
    assert name == "Анна" + "_" + "Мария";
    FirstNoUnderscore();
    ButtonTruncates("Анна", "Мария");
    TitleIdempotent("Анна");
    NameStorable(name);
    NameTitled();
    ButtonOfName(name);
  }

  lemma FirstNoUnderscore()
    ensures !Contains("Анна", "_")
  {
    forall i: nat | i <= 4 ensures !OccursAt("Анна", "_", i) {
      if i < 4 {
        assert "Анна"[i..i + 1][0] == "Анна"[i];
      }
    }
  }

  lemma NameTitled()
    ensures Title("Анна_Мария") == "Анна_Мария"
  {
    assert "Анна_Мария" == "Анна" + "_" + "Мария";
    TitledPair("Анна", "Мария");
  }

  /** Two capitalised words joined by "_" are already title-cased. */
  lemma TitledPair(a: string, b: string)
    requires |a| > 0 && IsUpper(a[0]) && forall k :: 1 <= k < |a| ==> IsLower(a[k])
    requires |b| > 0 && IsUpper(b[0]) && forall k :: 1 <= k < |b| ==> IsLower(b[k])
    ensures Title(a + "_" + b) == a + "_" + b
  {
    assert a + "_" + b == a + ("_" + b);
    TitleFromAppend(a, "_" + b, false);
    Capitalised(a);
    assert ("_" + b)[0] == '_' && ("_" + b)[1..] == b;
    Capitalised(b);
    assert TitleFrom("_" + b, true) == "_" + b;
  }

  /** Title-casing a concatenation: the second part continues from the last
      character of the first. */
  lemma {:induction false} TitleFromAppend(x: string, y: string, afterCased: bool)
    requires x != []
    ensures TitleFrom(x + y, afterCased) == TitleFrom(x, afterCased) + TitleFrom(y, IsCased(x[|x| - 1]))
    decreases |x|
  {
    assert (x + y)[0] == x[0] && (x + y)[1..] == x[1..] + y;
    if |x| > 1 {
      TitleFromAppend(x[1..], y, IsCased(x[0]));
      assert x[1..][|x[1..]| - 1] == x[|x| - 1];
    }
  }

  /** Lower-case letters after a cased one stay as they are. */
  lemma {:induction false} LowerStays(s: string)
    requires forall k :: 0 <= k < |s| ==> IsLower(s[k])
    ensures TitleFrom(s, true) == s
    decreases |s|
  {
    if s != [] {
      LowerStays(s[1..]);
      assert s == [s[0]] + s[1..];
    }
  }

  /** A capital followed by lower-case letters is already title-cased. */
  lemma Capitalised(s: string)
    requires |s| > 0 && IsUpper(s[0]) && forall k :: 1 <= k < |s| ==> IsLower(s[k])
    ensures TitleFrom(s, false) == s && IsCased(s[|s| - 1])
  {
    LowerStays(s[1..]);
    assert IsCased(s[0]) && ToUpper(s[0]) == s[0];
    assert TitleFrom(s, false) == [s[0]] + TitleFrom(s[1..], true);
    assert s == [s[0]] + s[1..];
  }

  /** "Анна_Мария" holds no list separator. */
  lemma NameStorable(name: string)
    requires name == "Анна_Мария"
    ensures Storable(name)
  {
    forall i: nat | i <= |name| ensures !OccursAt(name, Sep, i) {
      if i + 2 <= |name| {
        assert name[i..i + 2][0] == name[i];
      }
    }
  }

  // ---------------------------------------------------------------------------
  // The list of picked names
  // ---------------------------------------------------------------------------

  /** Two positions holding one value make it occur at least twice. */
  lemma RepeatCount<T>(ys: seq<T>, i: nat, j: nat)
    requires i < j < |ys| && ys[i] == ys[j]
    ensures multiset(ys)[ys[i]] >= 2
  {
    assert ys == ys[..j] + ys[j..];
    assert ys[i] == ys[..j][i];
    assert ys[j] == ys[j..][0];
    assert multiset(ys) == multiset(ys[..j]) + multiset(ys[j..]);
  }

  /** Reordering a list without repeats leaves it without repeats. */
  lemma DistinctReordered(xs: seq<string>, ys: seq<string>)
    requires Distinct(xs) && multiset(ys) == multiset(xs)
    ensures Distinct(ys)
  {
    forall i, j | 0 <= i < j < |ys| ensures ys[i] != ys[j] {
      if ys[i] == ys[j] {
        RepeatCount(ys, i, j);
        DistinctCount(xs, ys[i]);
        assert false;
      }
    }
  }

  /** Appending a name the list lacks keeps it without repeats. */
  lemma DistinctSnoc(xs: seq<string>, x: string)
    requires Distinct(xs) && x !in xs
    ensures Distinct(xs + [x])
  {
    var ys := xs + [x];
    forall i, j | 0 <= i < j < |ys| ensures ys[i] != ys[j] {
      if j == |xs| {
        assert ys[i] == xs[i];
      } else {
        assert ys[i] == xs[i] && ys[j] == xs[j];
      }
    }
  }

  // ---------------------------------------------------------------------------
  // /createreport
  // ---------------------------------------------------------------------------

  method CmdCreateReport(b: Bot, u: int) returns (out: seq<Outbound>)
    requires b.Valid()
    modifies b
    ensures unchanged(b.db)
    ensures b.Valid()
    ensures if u !in b.db.users then out == [] && b.conv == old(b.conv)
            else if Owned(b.db.groups, u) == [] then out == [Answer(NoGroupToReportText)] && b.conv == old(b.conv)
            else out == [Menu(ChooseGroupText, GroupsWhereCreator(b.db.groups, u))]
                 && b.conv == old(b.conv)[u := ReportGroupStep]
  {
    out := OpenOwnerFlow(b, u, NoGroupToReportText, ReportGroupStep);
  }

  /** The group step looks the name up as typed. An unknown name is refused
      and the step stays open; a group without members ends the flow (the
      corrected guard, see EmptyGroupGuardDead); otherwise the report opens
      with nobody picked and the members, sorted, are offered as buttons. */
  method ReportGroupName(b: Bot, u: int, text: string) returns (out: seq<Outbound>)
    requires b.Valid() && u in b.conv && b.conv[u] == ReportGroupStep
    modifies b
    ensures unchanged(b.db)
    ensures b.Valid()
    ensures var found := FindByCreator(b.db.groups, u, text);
            if found.None? then out == [Answer(UnknownGroupText)] && b.conv == old(b.conv)
            else if Members(found.value.members) == [] then
              out == [Answer(NoMembersToReportText)] && b.conv == old(b.conv) - {u}
            else out == [Answer(ReportStartText(text)),
                         Buttons(PickMembersText, ReportKeyboard(SortNames(Members(found.value.members))))]
                 && b.conv == old(b.conv)[u := ReportPickStep(text, [])]
  {
    var found := FindByCreator(b.db.groups, u, text);
    if found.None? {
      return [Answer(UnknownGroupText)];
    }
    var names := Split(found.value.members, Sep);
    SplitIsEmptyPiece(found.value.members, Sep);
    RawSplit(found.value.members);
    if names == [""] {
      b.Finish(u);
      return [Answer(NoMembersToReportText)];
    }
    ConvSet(b.conv, b.db.users, b.db.groups, u, ReportPickStep(text, []), b.conv[u := ReportPickStep(text, [])]);
    b.conv := b.conv[u := ReportPickStep(text, [])];
    out := [Answer(ReportStartText(text)), Buttons(PickMembersText, ReportKeyboard(SortNames(names)))];
  }

  /** The group step's test as written: `members.split(";\n") == []`
      never holds, so a group without members opens a report whose keyboard
      has a button for the empty name. */
  lemma EmptyGroupGuardDead(stored: string)
    ensures Split(stored, Sep) != []
    ensures stored == "" ==> ReportKeyboard(SortNames(Split(stored, Sep))) == [EncodeButton(""), SendButton]
  {
    if stored == "" {
      assert Split(stored, Sep) == [""];
      assert SortNames([""]) == [""];
    }
  }

  /** A member button: a name not yet picked joins the end of the list, a
      name picked before is reported as such; data that names nobody gets
      no answer. */
  method ReportPick(b: Bot, u: int, data: string) returns (out: seq<Outbound>)
    requires b.Valid() && u in b.conv && b.conv[u].ReportPickStep? && data != SendButton
    modifies b
    ensures unchanged(b.db)
    ensures b.Valid()
    ensures var f := old(b.conv[u]);
            match MemberOfButton(data)
            case None => out == [] && b.conv == old(b.conv)
            case Some(m) =>
              if m in f.picked then out == [Answer(AlreadyPickedText(m))] && b.conv == old(b.conv)
              else out == [Answer(PickedText(m))] && b.conv == old(b.conv)[u := f.(picked := f.picked + [m])]
  {
    var f := b.conv[u];
    var m := MemberOfButton(data);
    if m.None? {
      return [];
    }
    var name := m.value;
    if name in f.picked {
      return [Answer(AlreadyPickedText(name))];
    }
    assert FlowOk(b.db.users, b.db.groups, u, f);
    DistinctSnoc(f.picked, name);
    ConvSet(b.conv, b.db.users, b.db.groups, u, f.(picked := f.picked + [name]),
            b.conv[u := f.(picked := f.picked + [name])]);
    b.conv := b.conv[u := f.(picked := f.picked + [name])];
    out := [Answer(PickedText(name))];
  }

  /** The database half of the send button: today's report of the group is
      created with the picked names, or, when it exists, rewritten with
      them. `edited` tells which. */
  method ReportWrite(b: Bot, u: int, now: int) returns (edited: bool)
    requires b.Valid() && u in b.conv && b.conv[u].ReportPickStep?
    requires u in b.db.users && FindByCreator(b.db.groups, u, b.conv[u].group).Some?
    requires InCalendar(now, b.db.users[u].utcOffset)
    modifies b.db
    ensures b.Valid()
    ensures var id := FindByCreator(old(b.db.groups), u, b.conv[u].group).value.id;
            var date := LocalDate(now, old(b.db.users)[u].utcOffset);
            var stored := Store(b.conv[u].picked);
            edited == FindReport(old(b.db.reports), id, date).Some?
            && if edited then b.db.State() == old(b.db.State()).(
                                reports := WithReportMembers(old(b.db.reports), id, date, stored))
               else b.db.State() == old(b.db.State()).(
                      reports := WithReport(old(b.db.reports), old(b.db.nextId), id, date, stored),
                      nextId := old(b.db.nextId) + 1)
  {
    var f := b.conv[u];
    var g := FindByCreator(b.db.groups, u, f.group).value;
    var date := LocalDate(now, b.db.users[u].utcOffset);
    var existing := b.db.GetReport(u, f.group, now);
    edited := existing.Some?;
    if edited {
      EditReportKeepsValid(b.db.users, b.db.groups, b.db.reports, b.db.nextId, g.id, date, Store(f.picked));
      b.db.EditReport(u, f.group, f.picked, now);
    } else {
      assert g in b.db.groups;
      CreateReportKeepsValid(b.db.users, b.db.groups, b.db.reports, b.db.nextId, g.id, date, Store(f.picked));
      b.db.CreateReport(u, f.group, f.picked, now);
    }
  }

  /** The text the recipient gets: nobody absent, or the picked names
      sorted, one per line. */
  function ReportText(group: string, picked: seq<string>): string {
    if picked == [] then NobodyAbsentText(group) else AbsentText(group, SortNames(picked))
  }

  /** The send button. The report is saved first; when it replaced an
      earlier one the recipient is told, and if that message cannot be sent
      the flow stays as it is. Then the report goes to the recipient: on
      success the flow ends, otherwise it stays open with the picked list
      sorted (the handler sorts the stored list in place). `noticeSent` and
      `reportSent` are whether the Bot API accepted each message. */
  method ReportSend(b: Bot, u: int, now: int, noticeSent: bool, reportSent: bool) returns (out: seq<Outbound>)
    requires b.Valid() && u in b.conv && b.conv[u].ReportPickStep?
    requires u in b.db.users && FindByCreator(b.db.groups, u, b.conv[u].group).Some?
    requires InCalendar(now, b.db.users[u].utcOffset)
    modifies b, b.db
    ensures b.Valid()
    ensures var f := old(b.conv[u]);
            var g := FindByCreator(old(b.db.groups), u, f.group).value;
            var date := LocalDate(now, old(b.db.users)[u].utcOffset);
            var edited := FindReport(old(b.db.reports), g.id, date).Some?;
            (if edited then b.db.State() == old(b.db.State()).(
                              reports := WithReportMembers(old(b.db.reports), g.id, date, Store(f.picked)))
             else b.db.State() == old(b.db.State()).(
                    reports := WithReport(old(b.db.reports), old(b.db.nextId), g.id, date, Store(f.picked)),
                    nextId := old(b.db.nextId) + 1))
            && var notice := if edited then [Notify(g.recipient, ReportChangedText(f.group))] else [];
            if edited && !noticeSent then out == [Answer(NoticeFailedText)] && b.conv == old(b.conv)
            else if reportSent then
              out == notice + [Notify(g.recipient, ReportText(f.group, f.picked)), Answer(ReportSentText)]
              && b.conv == old(b.conv) - {u}
            else
              out == notice + [Answer(ReportFailedText)]
              && b.conv == old(b.conv)[u := f.(picked := SortNames(f.picked))]
  {
    var f := b.conv[u];
    var g := FindByCreator(b.db.groups, u, f.group).value;
    var edited := ReportWrite(b, u, now);
    out := SendReplies(b, u, g.recipient, edited, noticeSent, reportSent);
  }

  /** The messages of the send button once the report is saved. */
  method SendReplies(b: Bot, u: int, recipient: int, edited: bool, noticeSent: bool, reportSent: bool)
    returns (out: seq<Outbound>)
    requires b.Valid() && u in b.conv && b.conv[u].ReportPickStep?
    modifies b
    ensures unchanged(b.db)
    ensures b.Valid()
    ensures var f := old(b.conv[u]);
            var notice := if edited then [Notify(recipient, ReportChangedText(f.group))] else [];
            if edited && !noticeSent then out == [Answer(NoticeFailedText)] && b.conv == old(b.conv)
            else if reportSent then
              out == notice + [Notify(recipient, ReportText(f.group, f.picked)), Answer(ReportSentText)]
              && b.conv == old(b.conv) - {u}
            else
              out == notice + [Answer(ReportFailedText)]
              && b.conv == old(b.conv)[u := f.(picked := SortNames(f.picked))]
  {
    var f := b.conv[u];
    if edited && !noticeSent {
      return [Answer(NoticeFailedText)];
    }
    var notice := if edited then [Notify(recipient, ReportChangedText(f.group))] else [];
    if reportSent {
      b.Finish(u);
      out := notice + [Notify(recipient, ReportText(f.group, f.picked)), Answer(ReportSentText)];
    } else {
      assert FlowOk(b.db.users, b.db.groups, u, f);
      DistinctReordered(f.picked, SortNames(f.picked));
      ConvSet(b.conv, b.db.users, b.db.groups, u, f.(picked := SortNames(f.picked)),
              b.conv[u := f.(picked := SortNames(f.picked))]);
      b.conv := b.conv[u := f.(picked := SortNames(f.picked))];
      out := notice + [Answer(ReportFailedText)];
    }
  }

  /** The callback handler of the report step: the send button or a member
      button. */
  method ReportCallback(b: Bot, u: int, data: string, now: int, noticeSent: bool, reportSent: bool)
    returns (out: seq<Outbound>)
    requires b.Valid() && u in b.conv && b.conv[u].ReportPickStep? && ClockOk(now)
    modifies b, b.db
    ensures b.Valid()
    ensures data == SendButton ==>
              var f := old(b.conv[u]);
              u in old(b.db.users) && FindByCreator(old(b.db.groups), u, f.group).Some?
              && InCalendar(now, old(b.db.users)[u].utcOffset)
              && var g := FindByCreator(old(b.db.groups), u, f.group).value;
                 var date := LocalDate(now, old(b.db.users)[u].utcOffset);
                 var edited := FindReport(old(b.db.reports), g.id, date).Some?;
                 (if edited then b.db.State() == old(b.db.State()).(
                                   reports := WithReportMembers(old(b.db.reports), g.id, date, Store(f.picked)))
                  else b.db.State() == old(b.db.State()).(
                         reports := WithReport(old(b.db.reports), old(b.db.nextId), g.id, date, Store(f.picked)),
                         nextId := old(b.db.nextId) + 1))
                 && var notice := if edited then [Notify(g.recipient, ReportChangedText(f.group))] else [];
                 if edited && !noticeSent then out == [Answer(NoticeFailedText)] && b.conv == old(b.conv)
                 else if reportSent then
                   out == notice + [Notify(g.recipient, ReportText(f.group, f.picked)), Answer(ReportSentText)]
                   && b.conv == old(b.conv) - {u}
                 else
                   out == notice + [Answer(ReportFailedText)]
                   && b.conv == old(b.conv)[u := f.(picked := SortNames(f.picked))]
    ensures data != SendButton ==>
              var f := old(b.conv[u]);
              b.db.State() == old(b.db.State())
              && match MemberOfButton(data)
                 case None => out == [] && b.conv == old(b.conv)
                 case Some(m) =>
                   if m in f.picked then out == [Answer(AlreadyPickedText(m))] && b.conv == old(b.conv)
                   else out == [Answer(PickedText(m))] && b.conv == old(b.conv)[u := f.(picked := f.picked + [m])]
  {
    if data == SendButton {
      assert FlowOk(b.db.users, b.db.groups, u, b.conv[u]);
      assert UserOk(b.db.users[u]);
      ClockInCalendar(now, b.db.users[u].utcOffset);
      out := ReportSend(b, u, now, noticeSent, reportSent);
    } else {
      out := ReportPick(b, u, data);
    }
  }

  /** The report the recipient gets lists the picked names in order, each
      as often as it was picked, and splitting its list gives them back. */
  lemma ReportTextNames(group: string, picked: seq<string>)
    requires picked != [] && forall k :: 0 <= k < |picked| ==> GoodName(picked[k])
    ensures var sorted := SortNames(picked);
            ReportText(group, picked) == AbsentText(group, sorted)
            && Members(Store(sorted)) == sorted && SortedNames(sorted) && multiset(sorted) == multiset(picked)
  {
    var sorted := SortNames(picked);
    SortedGood(picked);
    MembersStore(sorted);
  }

  lemma SortedGood(picked: seq<string>)
    requires forall k :: 0 <= k < |picked| ==> GoodName(picked[k])
    ensures forall k :: 0 <= k < |SortNames(picked)| ==> Storable(SortNames(picked)[k])
    ensures SortNames(picked) != [""]
  {
    var sorted := SortNames(picked);
    forall k | 0 <= k < |sorted| ensures GoodName(sorted[k]) {
      assert sorted[k] in multiset(picked);
    }
  }

  // ---------------------------------------------------------------------------
  // /getstatistics
  // ---------------------------------------------------------------------------

  /** An unregistered caller raises in the lookup (no reply); a caller who
      receives no group's reports is refused; otherwise the groups are
      offered, sorted. */
  method CmdGetStatistics(b: Bot, u: int) returns (out: seq<Outbound>)
    requires b.Valid()
    modifies b
    ensures unchanged(b.db)
    ensures b.Valid()
    ensures if u !in b.db.users then out == [] && b.conv == old(b.conv)
            else if Received(b.db.groups, u) == [] then out == [Answer(NotRecipientText)] && b.conv == old(b.conv)
            else out == [Menu(ChooseGroupText, GroupsWhereRecipient(b.db.groups, u))]
                 && b.conv == old(b.conv)[u := StatisticsGroupStep]
  {
    if u !in b.db.users {
      return [];
    }
    var names := GroupsWhereRecipient(b.db.groups, u);
    assert |names| == |multiset(names)|;
    assert |Names(Received(b.db.groups, u))| == |multiset(Names(Received(b.db.groups, u)))|;
    if names == [] {
      return [Answer(NotRecipientText)];
    }
    ConvSet(b.conv, b.db.users, b.db.groups, u, StatisticsGroupStep, b.conv[u := StatisticsGroupStep]);
    b.conv := b.conv[u := StatisticsGroupStep];
    out := [Menu(ChooseGroupText, names)];
  }

  /** The group step: the title-cased name must be one of the groups whose
      reports the caller receives; then the three periods are offered. */
  method StatisticsGroupName(b: Bot, u: int, text: string) returns (out: seq<Outbound>)
    requires b.Valid() && u in b.conv && b.conv[u] == StatisticsGroupStep
    modifies b
    ensures unchanged(b.db)
    ensures b.Valid()
    ensures var name := Title(text);
            if FindByRecipient(b.db.groups, name, u).None? then
              out == [Answer(NotRecipientOfText)] && b.conv == old(b.conv)
            else out == [Menu(ChoosePeriodText, [Week, Month, Year])]
                 && b.conv == old(b.conv)[u := StatisticsPeriodStep(name)]
  {
    var name := Title(text);
    RecipientNamesLookup(b.db.groups, u, name);
    if name !in GroupsWhereRecipient(b.db.groups, u) {
      return [Answer(NotRecipientOfText)];
    }
    assert FlowOk(b.db.users, b.db.groups, u, b.conv[u]);
    ConvSet(b.conv, b.db.users, b.db.groups, u, StatisticsPeriodStep(name), b.conv[u := StatisticsPeriodStep(name)]);
    b.conv := b.conv[u := StatisticsPeriodStep(name)];
    out := [Menu(ChoosePeriodText, [Week, Month, Year])];
  }

  /** The period step: a text that is not one of the three periods is
      refused; otherwise the flow ends and the statistics of the period up
      to the caller's today are sent. Where the caller no longer receives
      the group's reports the request raises and nothing is sent. */
  method StatisticsPeriod(b: Bot, u: int, text: string, now: int) returns (out: seq<Outbound>)
    requires b.Valid() && u in b.conv && b.conv[u].StatisticsPeriodStep? && ClockOk(now)
    modifies b
    ensures unchanged(b.db)
    ensures b.Valid()
    ensures var period := Title(text);
            var group := old(b.conv[u].group);
            if !NamedPeriod(period) then out == [Answer(WrongPeriodText)] && b.conv == old(b.conv)
            else
              b.conv == old(b.conv) - {u}
              && u in b.db.users && InCalendar(now, b.db.users[u].utcOffset)
              && out == (match StatisticsAnswer(b.db.users, b.db.groups, b.db.reports, group, u, period, "", now)
                         case Some(t) => [Answer(t)]
                         case None => [])
              && (out != [] <==> FindByRecipient(b.db.groups, group, u).Some?)
  {
    var period := Title(text);
    if !NamedPeriod(period) {
      return [Answer(WrongPeriodText)];
    }
    var group := b.conv[u].group;
    assert FlowOk(b.db.users, b.db.groups, u, b.conv[u]);
    assert UserOk(b.db.users[u]);
    ClockInCalendar(now, b.db.users[u].utcOffset);
    b.Finish(u);
    var answer := b.db.GetStatistics(group, u, period, "", now);
    if answer.Some? {
      out := [Answer(answer.value)];
    } else {
      out := [];
    }
  }
}
