/** The three tables of the bot's database (`users`, `groups`, `reports`)
    as values, the row lookups the requests make, the row updates they
    perform, and the invariants the bot keeps on them.

    Users are keyed by their Telegram id; the surrogate `users.id` column is
    collapsed into it, so a group records the Telegram ids of its creator and
    of its reports recipient. Groups and reports are sequences in row order,
    and a lookup returns the first matching row, as `session.scalar` does. */
module Tables {
  import opened Wrappers
  import opened Text
  import opened Dates

  datatype User = User(utcOffset: int, feedbacks: int)
  datatype Group = Group(id: int, creator: int, name: string, recipient: int, members: string)
  datatype Report = Report(id: int, group: int, date: Date, members: string)
  /** The whole database at one moment, with the next primary key. */
  datatype Snapshot = Snapshot(users: map<int, User>, groups: seq<Group>, reports: seq<Report>, nextId: int)

  /** The offset a new user starts with: UTC+03:00. */
  const DefaultUtcOffset: int := 10800
  /** Groups one user may create. */
  const MaxGroups: int := 25
  /** Names one group may hold. */
  const MaxMembers: int := 25
  /** `String(25)`: the longest group or member name. */
  const MaxNameLength: int := 25
  /** The answer that ends adding or removing members. */
  const StopWord: string := "Стоп"

  // ---------------------------------------------------------------------------
  // Lookups
  // ---------------------------------------------------------------------------

  /** The rows created by `creator`, in row order. */
  function Owned(groups: seq<Group>, creator: int): (r: seq<Group>)
    ensures forall g :: g in r <==> g in groups && g.creator == creator
    ensures |r| <= |groups|
  {
    if groups == [] then []
    else (if groups[0].creator == creator then [groups[0]] else []) + Owned(groups[1..], creator)
  }

  /** The rows whose reports go to `recipient`, in row order. */
  function Received(groups: seq<Group>, recipient: int): (r: seq<Group>)
    ensures forall g :: g in r <==> g in groups && g.recipient == recipient
  {
    if groups == [] then []
    else (if groups[0].recipient == recipient then [groups[0]] else []) + Received(groups[1..], recipient)
  }

  /** The first row called `name`. */
  function FirstNamed(groups: seq<Group>, name: string): (r: Option<Group>)
    ensures r.Some? ==> r.value in groups && r.value.name == name
    ensures r.None? ==> forall g :: g in groups ==> g.name != name
  {
    if groups == [] then None
    else if groups[0].name == name then Some(groups[0])
    else FirstNamed(groups[1..], name)
  }

  /** `Group_Requests.get_by_creator`: the group `creator` made under `name`. */
  function FindByCreator(groups: seq<Group>, creator: int, name: string): Option<Group> {
    FirstNamed(Owned(groups, creator), name)
  }

  /** `Group_Requests.get_by_reports_recipient`. */
  function FindByRecipient(groups: seq<Group>, name: string, recipient: int): Option<Group> {
    FirstNamed(Received(groups, recipient), name)
  }

  function Names(groups: seq<Group>): (r: seq<string>)
    ensures |r| == |groups|
    ensures forall k :: 0 <= k < |groups| ==> r[k] == groups[k].name
  {
    if groups == [] then [] else [groups[0].name] + Names(groups[1..])
  }

  /** `get_groups_where_creator`: the names of the caller's groups, sorted. */
  function GroupsWhereCreator(groups: seq<Group>, tg: int): (r: seq<string>)
    ensures SortedNames(r) && multiset(r) == multiset(Names(Owned(groups, tg)))
  {
    SortNames(Names(Owned(groups, tg)))
  }

  /** `get_groups_where_reports_recipient`: the names of the groups whose
      reports go to the caller, sorted. */
  function GroupsWhereRecipient(groups: seq<Group>, tg: int): (r: seq<string>)
    ensures SortedNames(r) && multiset(r) == multiset(Names(Received(groups, tg)))
  {
    SortNames(Names(Received(groups, tg)))
  }

  /** A group name is listed for its recipient exactly when the group can be
      looked up by recipient and name. */
  lemma {:induction false} RecipientNamesLookup(groups: seq<Group>, tg: int, name: string)
    ensures name in GroupsWhereRecipient(groups, tg) <==> FindByRecipient(groups, name, tg).Some?
  {
    var rs := Received(groups, tg);
    var ns := GroupsWhereRecipient(groups, tg);
    assert name in ns <==> name in multiset(ns);
    assert name in Names(rs) <==> name in multiset(Names(rs));
    if name in Names(rs) {
      var k :| 0 <= k < |rs| && Names(rs)[k] == name;
      assert rs[k] in rs;
    }
    if FindByRecipient(groups, name, tg).Some? {
      var g := FindByRecipient(groups, name, tg).value;
      var k :| 0 <= k < |rs| && rs[k] == g;
      assert Names(rs)[k] == name;
    }
  }

  /** The caller owns no group exactly when the sorted list is empty. */
  lemma CreatorNamesCount(groups: seq<Group>, tg: int)
    ensures |GroupsWhereCreator(groups, tg)| == |Owned(groups, tg)|
  {
    var ns := GroupsWhereCreator(groups, tg);
    assert |ns| == |multiset(ns)|;
    assert |Names(Owned(groups, tg))| == |multiset(Names(Owned(groups, tg)))|;
  }

  /** `Report_Requests.get`'s query: the first report of group `id` on `date`. */
  function FindReport(reports: seq<Report>, id: int, date: Date): (r: Option<Report>)
    ensures r.Some? ==> r.value in reports && r.value.group == id && r.value.date == date
    ensures r.None? ==> forall x :: x in reports ==> !(x.group == id && x.date == date)
  {
    if reports == [] then None
    else if reports[0].group == id && reports[0].date == date then Some(reports[0])
    else FindReport(reports[1..], id, date)
  }

  // ---------------------------------------------------------------------------
  // The invariants
  // ---------------------------------------------------------------------------

  predicate Distinct<T(==)>(xs: seq<T>) {
    forall i, j :: 0 <= i < j < |xs| ==> xs[i] != xs[j]
  }

  /** A name the add-members flow lets into a group. */
  predicate GoodName(n: string) {
    n != "" && |n| <= MaxNameLength && n != StopWord && Storable(n)
  }

  /** A group's stored member list: at most 25 good names, no repeats. */
  predicate GoodMembers(stored: string) {
    var ms := Members(stored);
    |ms| <= MaxMembers && Distinct(ms) && forall k :: 0 <= k < |ms| ==> GoodName(ms[k])
  }

  predicate GroupOk(users: map<int, User>, g: Group, nextId: int) {
    g.creator in users && g.recipient in users && 0 <= g.id < nextId
    && |g.name| <= MaxNameLength && GoodMembers(g.members)
  }

  function GroupIds(groups: seq<Group>): set<int> {
    set g | g in groups :: g.id
  }

  predicate ReportOk(groups: seq<Group>, r: Report, nextId: int) {
    0 <= r.id < nextId && r.group in GroupIds(groups) && ValidDate(r.date) && r.date.year <= 9999
  }

  predicate UserOk(u: User) {
    -DaySeconds < u.utcOffset < DaySeconds && u.feedbacks >= 0
  }

  predicate UsersOk(users: map<int, User>) {
    forall tg :: tg in users ==> UserOk(users[tg])
  }

  predicate GroupsOk(users: map<int, User>, groups: seq<Group>, nextId: int) {
    forall i :: 0 <= i < |groups| ==> GroupOk(users, groups[i], nextId)
  }

  /** No two rows share an id, nor a creator and a name. */
  predicate GroupsApart(groups: seq<Group>) {
    forall i, j :: 0 <= i < j < |groups| ==>
      groups[i].id != groups[j].id
      && !(groups[i].creator == groups[j].creator && groups[i].name == groups[j].name)
  }

  /** Nobody owns more than 25 groups. */
  ghost predicate OwnedBounded(groups: seq<Group>) {
    forall tg :: |Owned(groups, tg)| <= MaxGroups
  }

  predicate ReportsOk(groups: seq<Group>, reports: seq<Report>, nextId: int) {
    forall i :: 0 <= i < |reports| ==> ReportOk(groups, reports[i], nextId)
  }

  /** No two rows share an id, nor a group and a day. */
  predicate ReportsApart(reports: seq<Report>) {
    forall i, j :: 0 <= i < j < |reports| ==>
      reports[i].id != reports[j].id
      && !(reports[i].group == reports[j].group && reports[i].date == reports[j].date)
  }

  /** What every request leaves true of the tables:
      - users hold offsets a `timezone` accepts;
      - groups name registered users, carry ids already handed out, names of
        at most 25 characters and good member lists;
      - no user made two groups of the same name, nor more than 25 groups;
      - reports belong to existing groups, and a group has at most one report
        per day. */
  ghost predicate TablesValid(users: map<int, User>, groups: seq<Group>, reports: seq<Report>, nextId: int) {
    0 <= nextId
    && UsersOk(users)
    && GroupsOk(users, groups, nextId)
    && GroupsApart(groups)
    && OwnedBounded(groups)
    && ReportsOk(groups, reports, nextId)
    && ReportsApart(reports)
  }
}
