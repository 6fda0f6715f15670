/** The requests of `database/requests.py` (`User_Requests`, `Group_Requests`,
    `Report_Requests`) as methods of one object that holds the three tables.
    Each writing method states its new tables as the row update of the
    Writes module applied to the old ones; the reading methods state their
    answer in terms of the lookups and of the Statistics and Export modules.

    A request that dereferences a missing row (`None.id`, `None.members`)
    raises in the source; a method here requires that row, and the handlers
    check for it first. */
module Requests {
  import opened Wrappers
  import opened Text
  import opened Dates
  import opened Tables
  import opened Writes
  import opened Statistics
  import opened Export

  /** The report loop of `remove_member`: each row of group `id` that lists
      `member` loses the name's first occurrence; the others stay. */
  method StripRows(reports: seq<Report>, id: int, member: string) returns (rs: seq<Report>)
    ensures rs == StripReports(reports, id, member)
  {
    ghost var target := StripReports(reports, id, member);
    rs := reports;
    var i := 0;
    while i < |rs|
      invariant 0 <= i <= |rs| == |reports|
      invariant forall k :: 0 <= k < i ==> rs[k] == target[k]
      invariant forall k :: i <= k < |rs| ==> rs[k] == reports[k]
    {
      if Lists(rs[i], id, member) {
        rs := rs[i := rs[i].(members := StripMember(rs[i].members, member))];
      }
      i := i + 1;
    }
  }

  class Database {
    var users: map<int, User>
    var groups: seq<Group>
    var reports: seq<Report>
    /** The next primary key the database hands out. */
    var nextId: int

    ghost predicate Valid()
      reads this
    {
      TablesValid(users, groups, reports, nextId)
    }

    function State(): Snapshot
      reads this
    {
      Snapshot(users, groups, reports, nextId)
    }

    /** Empty tables. */
    constructor()
      ensures users == map[] && groups == [] && reports == [] && nextId == 0
      ensures Valid()
    {
      users := map[];
      groups := [];
      reports := [];
      nextId := 0;
    }

    // -------------------------------------------------------------------------
    // User_Requests
    // -------------------------------------------------------------------------

    /** `User_Requests.init`. */
    method Init(tg: int)
      modifies this
      ensures users == InitUser(old(users), tg)
      ensures groups == old(groups) && reports == old(reports) && nextId == old(nextId)
    {
      if tg !in users {
        users := users[tg := User(DefaultUtcOffset, 0)];
      }
    }

    /** `User_Requests.set_utc_offset`. */
    method SetUtcOffset(tg: int, offset: int)
      modifies this
      ensures users == WithUtcOffset(old(users), tg, offset)
      ensures groups == old(groups) && reports == old(reports) && nextId == old(nextId)
    {
      if tg in users {
        users := users[tg := users[tg].(utcOffset := offset)];
      }
    }

    /** `User_Requests.increase_feedbacks_cnt`. */
    method IncreaseFeedbacks(tg: int)
      modifies this
      ensures users == WithFeedbackCounted(old(users), tg)
      ensures groups == old(groups) && reports == old(reports) && nextId == old(nextId)
    {
      if tg in users {
        users := users[tg := users[tg].(feedbacks := users[tg].feedbacks + 1)];
      }
    }

    /** `User_Requests.reset_feedbacks_cnt`. */
    method ResetFeedbacks()
      modifies this
      ensures users == WithFeedbacksReset(old(users))
      ensures groups == old(groups) && reports == old(reports) && nextId == old(nextId)
    {
      users := map k | k in users :: users[k].(feedbacks := 0);
    }

    // -------------------------------------------------------------------------
    // Group_Requests
    // -------------------------------------------------------------------------

    /** `Group_Requests.create`: the creator must be registered. */
    method CreateGroup(creator: int, name: string)
      requires creator in users
      modifies this
      ensures groups == WithNewGroup(old(groups), old(nextId), creator, name)
      ensures nextId == old(nextId) + 1
      ensures users == old(users) && reports == old(reports)
    {
      groups := groups + [Group(nextId, creator, name, creator, "")];
      nextId := nextId + 1;
    }

    /** `Group_Requests.add_member`: the group's list decoded ("" as no
        names), the name appended, the list stored again. */
    method AddMember(creator: int, name: string, member: string)
      requires creator in users && FindByCreator(groups, creator, name).Some?
      modifies this
      ensures groups == UpdateWhere(old(groups), creator, name,
                          SetMembers(AppendMember(FindByCreator(old(groups), creator, name).value.members, member)))
      ensures users == old(users) && reports == old(reports) && nextId == old(nextId)
    {
      var stored := FindByCreator(groups, creator, name).value.members;
      var names: seq<string>;
      if stored == "" {
        names := [];
      } else {
        names := Split(stored, Sep);
      }
      names := names + [member];
      groups := UpdateWhere(groups, creator, name, SetMembers(Join(names, Sep)));
    }

    /** `Group_Requests.delete`: the group and, by the cascade, its
        reports. */
    method DeleteGroup(creator: int, name: string)
      requires FindByCreator(groups, creator, name).Some?
      modifies this
      ensures groups == WithoutGroup(old(groups), creator, name)
      ensures reports == WithoutReportsOf(old(reports), FindByCreator(old(groups), creator, name).value.id)
      ensures users == old(users) && nextId == old(nextId)
    {
      var id := FindByCreator(groups, creator, name).value.id;
      groups := WithoutGroup(groups, creator, name);
      reports := WithoutReportsOf(reports, id);
    }

    /** `Group_Requests.remove_member`: the first occurrence of the name goes
        from the group's list and from every report of the group that lists
        it (`list.remove` raises when the group does not list it). */
    method RemoveMember(creator: int, name: string, member: string)
      requires creator in users && FindByCreator(groups, creator, name).Some?
      requires member in Split(FindByCreator(groups, creator, name).value.members, Sep)
      modifies this
      ensures var g := FindByCreator(old(groups), creator, name).value;
              groups == UpdateWhere(old(groups), creator, name, SetMembers(StripMember(g.members, member)))
              && reports == StripReports(old(reports), g.id, member)
      ensures users == old(users) && nextId == old(nextId)
    {
      var g := FindByCreator(groups, creator, name).value;
      groups := UpdateWhere(groups, creator, name, SetMembers(StripMember(g.members, member)));
      reports := StripRows(reports, g.id, member);
    }

    /** `Group_Requests.assign_reports_recipient`. The recipient lookup
        raises `AttributeError` for a user who never started the bot; the
        handler catches it, and `ok` is false with nothing changed. */
    method AssignRecipient(creator: int, name: string, recipient: int) returns (ok: bool)
      requires creator in users
      modifies this
      ensures ok == (recipient in old(users))
      ensures groups == (if ok then UpdateWhere(old(groups), creator, name, SetRecipient(recipient)) else old(groups))
      ensures users == old(users) && reports == old(reports) && nextId == old(nextId)
    {
      if recipient !in users {
        return false;
      }
      groups := UpdateWhere(groups, creator, name, SetRecipient(recipient));
      return true;
    }

    // -------------------------------------------------------------------------
    // Report_Requests
    // -------------------------------------------------------------------------

    /** `Report_Requests.get`: today's report of the group, today being the
        creator's local date at clock reading `now`. */
    method GetReport(creator: int, name: string, now: int) returns (r: Option<Report>)
      requires creator in users && FindByCreator(groups, creator, name).Some?
      requires InCalendar(now, users[creator].utcOffset)
      ensures r == FindReport(reports, FindByCreator(groups, creator, name).value.id,
                              LocalDate(now, users[creator].utcOffset))
      ensures r.Some? ==> r.value in reports
    {
      var id := FindByCreator(groups, creator, name).value.id;
      var date := LocalDate(now, users[creator].utcOffset);
      r := FindReport(reports, id, date);
    }

    /** `Report_Requests.create`: a new report of today for the group. */
    method CreateReport(creator: int, name: string, members: seq<string>, now: int)
      requires creator in users && FindByCreator(groups, creator, name).Some?
      requires InCalendar(now, users[creator].utcOffset)
      modifies this
      ensures reports == WithReport(old(reports), old(nextId), FindByCreator(old(groups), creator, name).value.id,
                                    LocalDate(now, old(users)[creator].utcOffset), Store(members))
      ensures nextId == old(nextId) + 1
      ensures users == old(users) && groups == old(groups)
    {
      var id := FindByCreator(groups, creator, name).value.id;
      var date := LocalDate(now, users[creator].utcOffset);
      reports := reports + [Report(nextId, id, date, Join(members, Sep))];
      nextId := nextId + 1;
    }

    /** `Report_Requests.edit`: today's report of the group gets the new
        list. */
    method EditReport(creator: int, name: string, members: seq<string>, now: int)
      requires creator in users && FindByCreator(groups, creator, name).Some?
      requires InCalendar(now, users[creator].utcOffset)
      modifies this
      ensures reports == WithReportMembers(old(reports), FindByCreator(old(groups), creator, name).value.id,
                                           LocalDate(now, old(users)[creator].utcOffset), Store(members))
      ensures users == old(users) && groups == old(groups) && nextId == old(nextId)
    {
      var id := FindByCreator(groups, creator, name).value.id;
      var date := LocalDate(now, users[creator].utcOffset);
      reports := WithReportMembers(reports, id, date, Join(members, Sep));
    }

    /** `Report_Requests.get_statistics`. `None` stands for the exception
        raised when the caller is not the recipient of a group of that name
        or when a date does not parse. */
    method GetStatistics(groupName: string, recipient: int, dateFrom: string, dateTo: string, now: int)
      returns (r: Option<string>)
      requires recipient in users && InCalendar(now, users[recipient].utcOffset)
      ensures r == StatisticsAnswer(users, groups, reports, groupName, recipient, dateFrom, dateTo, now)
    {
      var group := FindByRecipient(groups, groupName, recipient);
      if group.None? {
        return None;
      }
      var today := LocalDate(now, users[recipient].utcOffset);
      var period := ResolvePeriod(dateFrom, dateTo, today);
      if period.None? {
        return None;
      }
      var selected := Selected(reports, group.value.id, period.value);
      var total, tally := CountAbsences(selected);
      var text := FormatStatistics(groupName, period.value, total, Rank(tally));
      return Some(text);
    }

    /** `Report_Requests.get_file` up to the writer call; `creatorName` is
        the creator's Telegram username. */
    method GetFile(groupName: string, recipient: int, dateFrom: string, dateTo: string,
                   fileFormat: string, creatorName: string, now: int)
      returns (r: Option<FileResult>)
      requires Printable(reports)
      requires recipient in users && InCalendar(now, users[recipient].utcOffset)
      ensures r == FileAnswer(users, groups, reports, groupName, recipient, dateFrom, dateTo, fileFormat, creatorName, now)
    {
      var group := FindByRecipient(groups, groupName, recipient);
      if group.None? {
        return None;
      }
      var today := LocalDate(now, users[recipient].utcOffset);
      var period := ResolvePeriod(dateFrom, dateTo, today);
      if period.None? {
        return None;
      }
      var range := period.value;
      var selected := Selected(reports, group.value.id, range);
      SelectedPrintable(reports, group.value.id, range);
      ByDateMeaning(selected);
      var ordered := ByDate(selected);
      var count, rows, heights := BuildRows(creatorName, groupName, ordered);
      if count == 3 {
        return Some(NoReportsFile(NoReportsText(groupName, range)));
      }
      var writer := if fileFormat == "Xlsx" then XlsxWriter else PdfWriter;
      var doc := Document(writer, count, rows, heights, "./database/Отчёты." + Lower(fileFormat),
                          FileCaption(groupName, range));
      return Some(File(doc));
    }
  }

  /** What `get_statistics` answers for the tables. */
  function StatisticsAnswer(users: map<int, User>, groups: seq<Group>, reports: seq<Report>,
                            groupName: string, recipient: int, dateFrom: string, dateTo: string, now: int)
    : (r: Option<string>)
    requires recipient in users && InCalendar(now, users[recipient].utcOffset)
    ensures r.Some? <==> FindByRecipient(groups, groupName, recipient).Some?
                         && ResolvePeriod(dateFrom, dateTo, LocalDate(now, users[recipient].utcOffset)).Some?
  {
    match FindByRecipient(groups, groupName, recipient)
    case None => None
    case Some(g) =>
      match ResolvePeriod(dateFrom, dateTo, LocalDate(now, users[recipient].utcOffset))
      case None => None
      case Some(range) => Some(StatisticsFor(groupName, reports, g.id, range))
  }

  /** What `get_file` hands over for the tables. */
  function FileAnswer(users: map<int, User>, groups: seq<Group>, reports: seq<Report>,
                      groupName: string, recipient: int, dateFrom: string, dateTo: string,
                      fileFormat: string, creatorName: string, now: int): (r: Option<FileResult>)
    requires Printable(reports)
    requires recipient in users && InCalendar(now, users[recipient].utcOffset)
    ensures r.Some? <==> FindByRecipient(groups, groupName, recipient).Some?
                         && ResolvePeriod(dateFrom, dateTo, LocalDate(now, users[recipient].utcOffset)).Some?
  {
    match FindByRecipient(groups, groupName, recipient)
    case None => None
    case Some(g) =>
      match ResolvePeriod(dateFrom, dateTo, LocalDate(now, users[recipient].utcOffset))
      case None => None
      case Some(range) =>
        SelectedPrintable(reports, g.id, range);
        Some(ExportFile(groupName, creatorName, fileFormat, reports, g.id, range))
  }

  /** Valid tables hold only dates `strftime` can print. */
  lemma ValidPrintable(users: map<int, User>, groups: seq<Group>, reports: seq<Report>, nextId: int)
    requires TablesValid(users, groups, reports, nextId)
    ensures Printable(reports)
  {
    forall k | 0 <= k < |reports| ensures ValidDate(reports[k].date) && reports[k].date.year <= 9999 {
      assert ReportOk(groups, reports[k], nextId);
    }
  }
}
