/** Every write keeps the tables valid, given the checks the handler makes
    before it. Each lemma takes the old tables and the row update of the
    Writes module that the request performs. */
module Invariants {
  import opened Wrappers
  import opened Text
  import opened Dates
  import opened Tables
  import opened Writes
  import opened Seqs

  // ---------------------------------------------------------------------------
  // users
  // ---------------------------------------------------------------------------

  /** `/start` registers a user and keeps the tables valid. */
  lemma InitKeepsValid(users: map<int, User>, groups: seq<Group>, reports: seq<Report>, nextId: int, tg: int)
    requires TablesValid(users, groups, reports, nextId)
    ensures TablesValid(InitUser(users, tg), groups, reports, nextId)
    ensures tg in InitUser(users, tg)
  {
    var u := InitUser(users, tg);
    forall i | 0 <= i < |groups| ensures GroupOk(u, groups[i], nextId) {
      assert GroupOk(users, groups[i], nextId);
    }
  }

  /** An offset strictly inside a day each side keeps the tables valid. */
  lemma SetUtcOffsetKeepsValid(users: map<int, User>, groups: seq<Group>, reports: seq<Report>, nextId: int,
                               tg: int, offset: int)
    requires TablesValid(users, groups, reports, nextId)
    requires -DaySeconds < offset < DaySeconds
    ensures TablesValid(WithUtcOffset(users, tg, offset), groups, reports, nextId)
  {
    var u := WithUtcOffset(users, tg, offset);
    forall i | 0 <= i < |groups| ensures GroupOk(u, groups[i], nextId) {
      assert GroupOk(users, groups[i], nextId);
    }
  }

  lemma FeedbackKeepsValid(users: map<int, User>, groups: seq<Group>, reports: seq<Report>, nextId: int, tg: int)
    requires TablesValid(users, groups, reports, nextId)
    ensures TablesValid(WithFeedbackCounted(users, tg), groups, reports, nextId)
  {
    var u := WithFeedbackCounted(users, tg);
    forall i | 0 <= i < |groups| ensures GroupOk(u, groups[i], nextId) {
      assert GroupOk(users, groups[i], nextId);
    }
  }

  lemma ResetKeepsValid(users: map<int, User>, groups: seq<Group>, reports: seq<Report>, nextId: int)
    requires TablesValid(users, groups, reports, nextId)
    ensures TablesValid(WithFeedbacksReset(users), groups, reports, nextId)
  {
    var u := WithFeedbacksReset(users);
    forall i | 0 <= i < |groups| ensures GroupOk(u, groups[i], nextId) {
      assert GroupOk(users, groups[i], nextId);
    }
  }

  // ---------------------------------------------------------------------------
  // groups
  // ---------------------------------------------------------------------------

  /** With no two groups of one creator and name, the row found is the only
      row of that creator and name. */
  lemma KeyedIsFound(groups: seq<Group>, creator: int, name: string, i: nat)
    requires GroupsApart(groups) && FindByCreator(groups, creator, name).Some?
    requires i < |groups| && Keyed(groups[i], creator, name)
    ensures groups[i] == FindByCreator(groups, creator, name).value
  {
    var g := FindByCreator(groups, creator, name).value;
    assert g in Owned(groups, creator);
    var j :| 0 <= j < |groups| && groups[j] == g;
    assert Keyed(groups[j], creator, name);
    assert i == j;
  }

  /** A name the creator has not used yet and a free slot: the new group
      keeps the tables valid. */
  lemma CreateGroupKeepsValid(users: map<int, User>, groups: seq<Group>, reports: seq<Report>, nextId: int,
                              creator: int, name: string)
    requires TablesValid(users, groups, reports, nextId)
    requires creator in users && |name| <= MaxNameLength
    requires FindByCreator(groups, creator, name).None?
    requires |Owned(groups, creator)| < MaxGroups
    ensures TablesValid(users, WithNewGroup(groups, nextId, creator, name), reports, nextId + 1)
  {
    var gs := WithNewGroup(groups, nextId, creator, name);
    NewGroupsOk(users, groups, nextId, creator, name);
    NewGroupsApart(users, groups, nextId, creator, name);
    NewGroupEffect(groups, nextId, creator, name);
    assert OwnedBounded(gs) by {
      forall tg ensures |Owned(gs, tg)| <= MaxGroups {
        if tg != creator {
          assert Owned(gs, tg) == Owned(groups, tg);
          assert |Owned(groups, tg)| <= MaxGroups;
        }
      }
    }
    NewReportsOk(groups, reports, nextId, creator, name);
  }

  /** The new row is good, and the old rows stay good under the larger id
      bound. */
  lemma NewGroupsOk(users: map<int, User>, groups: seq<Group>, nextId: int, creator: int, name: string)
    requires 0 <= nextId && GroupsOk(users, groups, nextId)
    requires creator in users && |name| <= MaxNameLength
    ensures GroupsOk(users, WithNewGroup(groups, nextId, creator, name), nextId + 1)
  {
    var gs := WithNewGroup(groups, nextId, creator, name);
    assert Members("") == [];
    forall i | 0 <= i < |gs| ensures GroupOk(users, gs[i], nextId + 1) {
      if i < |groups| {
        assert gs[i] == groups[i];
        assert GroupOk(users, groups[i], nextId);
      } else {
        assert gs[i] == Group(nextId, creator, name, creator, "");
        assert GoodMembers("");
      }
    }
  }

  /** The new row's id is fresh and its name is new among its creator's. */
  lemma NewGroupsApart(users: map<int, User>, groups: seq<Group>, nextId: int, creator: int, name: string)
    requires GroupsOk(users, groups, nextId) && GroupsApart(groups)
    requires FindByCreator(groups, creator, name).None?
    ensures GroupsApart(WithNewGroup(groups, nextId, creator, name))
  {
    var gs := WithNewGroup(groups, nextId, creator, name);
    forall i, j | 0 <= i < j < |gs|
      ensures gs[i].id != gs[j].id && !(gs[i].creator == gs[j].creator && gs[i].name == gs[j].name)
    {
      assert gs[i] == groups[i];
      if j == |groups| {
        assert GroupOk(users, groups[i], nextId);
        if groups[i].creator == creator {
          assert groups[i] in Owned(groups, creator);
        }
      } else {
        assert gs[j] == groups[j];
      }
    }
  }

  /** Reports keep naming existing groups. */
  lemma NewReportsOk(groups: seq<Group>, reports: seq<Report>, nextId: int, creator: int, name: string)
    requires ReportsOk(groups, reports, nextId)
    ensures ReportsOk(WithNewGroup(groups, nextId, creator, name), reports, nextId + 1)
  {
    var gs := WithNewGroup(groups, nextId, creator, name);
    forall i | 0 <= i < |reports| ensures ReportOk(gs, reports[i], nextId + 1) {
      assert ReportOk(groups, reports[i], nextId);
      var k :| k in groups && k.id == reports[i].group;
      assert k in gs;
    }
  }

  /** The rows an UPDATE touches are the found row, changed; the others
      stay as they were. */
  lemma UpdateGroupsOk(users: map<int, User>, groups: seq<Group>, nextId: int,
                       creator: int, name: string, c: Change)
    requires GroupsOk(users, groups, nextId) && GroupsApart(groups)
    requires FindByCreator(groups, creator, name).Some?
    requires GroupOk(users, Apply(FindByCreator(groups, creator, name).value, c), nextId)
    ensures GroupsOk(users, UpdateWhere(groups, creator, name, c), nextId)
  {
    var gs := UpdateWhere(groups, creator, name, c);
    forall i | 0 <= i < |gs| ensures GroupOk(users, gs[i], nextId) {
      if Keyed(groups[i], creator, name) {
        KeyedIsFound(groups, creator, name, i);
      }
    }
  }

  /** An UPDATE keeps every id, creator and name in its place. */
  lemma UpdateGroupsApart(groups: seq<Group>, creator: int, name: string, c: Change)
    requires GroupsApart(groups)
    ensures GroupsApart(UpdateWhere(groups, creator, name, c))
    ensures GroupIds(UpdateWhere(groups, creator, name, c)) == GroupIds(groups)
  {
    var gs := UpdateWhere(groups, creator, name, c);
    assert forall i :: 0 <= i < |gs| ==>
      gs[i].id == groups[i].id && gs[i].creator == groups[i].creator && gs[i].name == groups[i].name;
    GroupIdsSame(groups, gs);
  }

  /** Reports only look at the set of group ids. */
  lemma ReportsOkSameIds(groups: seq<Group>, gs: seq<Group>, reports: seq<Report>, nextId: int)
    requires ReportsOk(groups, reports, nextId) && GroupIds(gs) == GroupIds(groups)
    ensures ReportsOk(gs, reports, nextId)
  {
    forall i | 0 <= i < |reports| ensures ReportOk(gs, reports[i], nextId) {
      assert ReportOk(groups, reports[i], nextId);
    }
  }

  /** An UPDATE of one group that leaves it a good row keeps the tables
      valid: ids, creators and names stay, and so does every count. */
  lemma UpdateKeepsValid(users: map<int, User>, groups: seq<Group>, reports: seq<Report>, nextId: int,
                         creator: int, name: string, c: Change)
    requires TablesValid(users, groups, reports, nextId)
    requires FindByCreator(groups, creator, name).Some?
    requires GroupOk(users, Apply(FindByCreator(groups, creator, name).value, c), nextId)
    ensures TablesValid(users, UpdateWhere(groups, creator, name, c), reports, nextId)
    ensures GroupIds(UpdateWhere(groups, creator, name, c)) == GroupIds(groups)
  {
    UpdateGroupsOk(users, groups, nextId, creator, name, c);
    UpdateGroupsApart(groups, creator, name, c);
    UpdateEffect(groups, creator, name, c);
    ReportsOkSameIds(groups, UpdateWhere(groups, creator, name, c), reports, nextId);
  }

  /** Rows that keep their ids keep the set of ids. */
  lemma GroupIdsSame(a: seq<Group>, b: seq<Group>)
    requires |a| == |b| && forall i :: 0 <= i < |a| ==> a[i].id == b[i].id
    ensures GroupIds(a) == GroupIds(b)
  {
    forall x | x in GroupIds(a) ensures x in GroupIds(b) {
      var g :| g in a && g.id == x;
      var i :| 0 <= i < |a| && a[i] == g;
      assert b[i] in b;
    }
    forall x | x in GroupIds(b) ensures x in GroupIds(a) {
      var g :| g in b && g.id == x;
      var i :| 0 <= i < |b| && b[i] == g;
      assert a[i] in a;
    }
  }

  /** The add-members step lets only a good new name into a group below 25
      names; the tables stay valid. */
  lemma AddMemberKeepsValid(users: map<int, User>, groups: seq<Group>, reports: seq<Report>, nextId: int,
                            creator: int, name: string, member: string)
    requires TablesValid(users, groups, reports, nextId)
    requires FindByCreator(groups, creator, name).Some?
    requires var g := FindByCreator(groups, creator, name).value;
             GoodName(member) && member !in Members(g.members) && |Members(g.members)| < MaxMembers
    ensures var g := FindByCreator(groups, creator, name).value;
            TablesValid(users, UpdateWhere(groups, creator, name, SetMembers(AppendMember(g.members, member))),
                        reports, nextId)
  {
    var g := FindByCreator(groups, creator, name).value;
    var j :| 0 <= j < |groups| && groups[j] == g;
    assert GroupOk(users, g, nextId);
    AppendMemberDecodes(g.members, member);
    var ms := Members(g.members) + [member];
    assert Members(AppendMember(g.members, member)) == ms;
    assert forall k :: 0 <= k < |Members(g.members)| ==> ms[k] == Members(g.members)[k];
    UpdateKeepsValid(users, groups, reports, nextId, creator, name, SetMembers(AppendMember(g.members, member)));
  }

  /** Handing a group to a registered recipient keeps the tables valid. */
  lemma AssignKeepsValid(users: map<int, User>, groups: seq<Group>, reports: seq<Report>, nextId: int,
                         creator: int, name: string, recipient: int)
    requires TablesValid(users, groups, reports, nextId)
    requires FindByCreator(groups, creator, name).Some? && recipient in users
    ensures TablesValid(users, UpdateWhere(groups, creator, name, SetRecipient(recipient)), reports, nextId)
  {
    var g := FindByCreator(groups, creator, name).value;
    var j :| 0 <= j < |groups| && groups[j] == g;
    assert GroupOk(users, g, nextId);
    UpdateKeepsValid(users, groups, reports, nextId, creator, name, SetRecipient(recipient));
  }

  /** Removing a listed name from a good list leaves a good list. */
  lemma StripMemberGood(stored: string, member: string)
    requires GoodMembers(stored) && member in Members(stored)
    ensures member in Split(stored, Sep)
    ensures GoodMembers(StripMember(stored, member))
  {
    var ms := Members(stored);
    assert "" !in ms by {
      forall k | 0 <= k < |ms| ensures ms[k] != "" {
        assert GoodName(ms[k]);
      }
    }
    StripMemberDecodes(stored, member);
    var rest := RemoveFirst(ms, member);
    assert Members(StripMember(stored, member)) == rest;
    assert |rest| <= MaxMembers by {
      RemoveFirstCount(ms, member);
    }
    assert Distinct(rest) && forall k :: 0 <= k < |rest| ==> GoodName(rest[k]) by {
      RemoveFirstDistinct(ms, member);
      forall k | 0 <= k < |rest| ensures GoodName(rest[k]) {
        assert rest[k] in ms;
      }
    }
  }

  /** Rows that keep their ids, groups and days keep the report rules. */
  lemma SameKeysValid(groups: seq<Group>, reports: seq<Report>, rs: seq<Report>, nextId: int)
    requires ReportsOk(groups, reports, nextId) && ReportsApart(reports)
    requires |rs| == |reports|
    requires forall i :: 0 <= i < |rs| ==>
               rs[i].id == reports[i].id && rs[i].group == reports[i].group && rs[i].date == reports[i].date
    ensures ReportsOk(groups, rs, nextId) && ReportsApart(rs)
  {
    forall i | 0 <= i < |rs| ensures ReportOk(groups, rs[i], nextId) {
      assert ReportOk(groups, reports[i], nextId);
    }
  }

  /** Rewriting report lists in place keeps ids, groups and days. */
  lemma StripReportsValid(groups: seq<Group>, reports: seq<Report>, nextId: int, id: int, member: string)
    requires ReportsOk(groups, reports, nextId) && ReportsApart(reports)
    ensures ReportsOk(groups, StripReports(reports, id, member), nextId)
    ensures ReportsApart(StripReports(reports, id, member))
  {
    var rs := StripReports(reports, id, member);
    assert forall i :: 0 <= i < |rs| ==>
      rs[i].id == reports[i].id && rs[i].group == reports[i].group && rs[i].date == reports[i].date;
    SameKeysValid(groups, reports, rs, nextId);
  }

  /** Removing a listed name keeps the group's list good, and the reports
      only change their lists. */
  lemma RemoveMemberKeepsValid(users: map<int, User>, groups: seq<Group>, reports: seq<Report>, nextId: int,
                               creator: int, name: string, member: string)
    requires TablesValid(users, groups, reports, nextId)
    requires FindByCreator(groups, creator, name).Some?
    requires member in Members(FindByCreator(groups, creator, name).value.members)
    ensures var g := FindByCreator(groups, creator, name).value;
            member in Split(g.members, Sep)
            && TablesValid(users, UpdateWhere(groups, creator, name, SetMembers(StripMember(g.members, member))),
                           StripReports(reports, g.id, member), nextId)
  {
    var g := FindByCreator(groups, creator, name).value;
    var j :| 0 <= j < |groups| && groups[j] == g;
    assert GroupOk(users, g, nextId);
    StripMemberGood(g.members, member);
    var c := SetMembers(StripMember(g.members, member));
    UpdateKeepsValid(users, groups, reports, nextId, creator, name, c);
    var gs := UpdateWhere(groups, creator, name, c);
    StripReportsValid(gs, reports, nextId, g.id, member);
  }

  /** One report apart from another: different ids, and not the same group
      and day. */
  predicate ApartFrom(a: Report, b: Report) {
    a.id != b.id && !(a.group == b.group && a.date == b.date)
  }

  lemma ApartCons(h: Report, t: seq<Report>)
    ensures ReportsApart([h] + t) <==> ReportsApart(t) && forall x :: x in t ==> ApartFrom(h, x)
  {
    var r := [h] + t;
    if ReportsApart(r) {
      forall i, j | 0 <= i < j < |t| ensures ApartFrom(t[i], t[j]) {
        assert r[i + 1] == t[i] && r[j + 1] == t[j];
      }
      forall x | x in t ensures ApartFrom(h, x) {
        var j :| 0 <= j < |t| && t[j] == x;
        assert r[0] == h && r[j + 1] == x;
      }
    }
    if ReportsApart(t) && forall x :: x in t ==> ApartFrom(h, x) {
      forall i, j | 0 <= i < j < |r| ensures ApartFrom(r[i], r[j]) {
        if i == 0 {
          assert r[j] == t[j - 1] && r[j] in t;
        } else {
          assert r[i] == t[i - 1] && r[j] == t[j - 1];
        }
      }
    }
  }

  /** The cascade keeps every report whose group is not the deleted one,
      and the pairwise facts of the kept ones. */
  lemma {:induction false} WithoutReportsApart(reports: seq<Report>, id: int)
    requires ReportsApart(reports)
    ensures ReportsApart(WithoutReportsOf(reports, id))
  {
    if reports != [] {
      var h := reports[0];
      var t := reports[1..];
      assert reports == [h] + t;
      ApartCons(h, t);
      WithoutReportsApart(t, id);
      var ft := WithoutReportsOf(t, id);
      if h.group != id {
        assert WithoutReportsOf(reports, id) == [h] + ft;
        ApartCons(h, ft);
      } else {
        assert WithoutReportsOf(reports, id) == ft;
      }
    }
  }

  /** The rows left by the delete, each at its new index. */
  lemma WithoutGroupRows(groups: seq<Group>, creator: int, name: string, k: nat)
    requires FirstKeyed(groups, creator, name) == Some(k)
    ensures var gs := WithoutGroup(groups, creator, name);
            |gs| == |groups| - 1
            && (forall i :: 0 <= i < k ==> gs[i] == groups[i])
            && (forall i :: k <= i < |gs| ==> gs[i] == groups[i + 1])
  {
    CutIndex(groups, k);
  }

  lemma WithoutGroupOk(users: map<int, User>, groups: seq<Group>, nextId: int, creator: int, name: string)
    requires GroupsOk(users, groups, nextId) && GroupsApart(groups)
    requires FirstKeyed(groups, creator, name).Some?
    ensures GroupsOk(users, WithoutGroup(groups, creator, name), nextId)
    ensures GroupsApart(WithoutGroup(groups, creator, name))
  {
    var k := FirstKeyed(groups, creator, name).value;
    WithoutGroupRows(groups, creator, name, k);
    var gs := WithoutGroup(groups, creator, name);
    forall i | 0 <= i < |gs| ensures GroupOk(users, gs[i], nextId) {
      if i < k {
        assert gs[i] == groups[i];
      } else {
        assert gs[i] == groups[i + 1];
      }
    }
    forall i, j | 0 <= i < j < |gs|
      ensures gs[i].id != gs[j].id && !(gs[i].creator == gs[j].creator && gs[i].name == gs[j].name)
    {
      var i' := if i < k then i else i + 1;
      var j' := if j < k then j else j + 1;
      assert gs[i] == groups[i'] && gs[j] == groups[j'] && i' < j';
    }
  }

  /** A report whose group survives the delete still names a group. */
  lemma WithoutGroupReportsOk(groups: seq<Group>, reports: seq<Report>, nextId: int, creator: int, name: string)
    requires ReportsOk(groups, reports, nextId) && GroupsApart(groups)
    requires FirstKeyed(groups, creator, name).Some?
    ensures var k := FirstKeyed(groups, creator, name).value;
            ReportsOk(WithoutGroup(groups, creator, name), WithoutReportsOf(reports, groups[k].id), nextId)
  {
    var k := FirstKeyed(groups, creator, name).value;
    WithoutGroupRows(groups, creator, name, k);
    var gs := WithoutGroup(groups, creator, name);
    var rs := WithoutReportsOf(reports, groups[k].id);
    forall i | 0 <= i < |rs| ensures ReportOk(gs, rs[i], nextId) {
      assert rs[i] in rs;
      var m :| 0 <= m < |reports| && reports[m] == rs[i];
      assert ReportOk(groups, reports[m], nextId);
      var h :| h in groups && h.id == rs[i].group;
      var p :| 0 <= p < |groups| && groups[p] == h;
      if p < k {
        assert gs[p] == h;
      } else {
        assert p != k;
        assert gs[p - 1] == h;
      }
    }
  }

  /** Deleting a group and, by the cascade, its reports keeps the tables
      valid. */
  lemma DeleteKeepsValid(users: map<int, User>, groups: seq<Group>, reports: seq<Report>, nextId: int,
                         creator: int, name: string)
    requires TablesValid(users, groups, reports, nextId)
    requires FindByCreator(groups, creator, name).Some?
    ensures TablesValid(users, WithoutGroup(groups, creator, name),
                        WithoutReportsOf(reports, FindByCreator(groups, creator, name).value.id), nextId)
  {
    FirstKeyedFound(groups, creator, name);
    WithoutGroupOk(users, groups, nextId, creator, name);
    WithoutGroupReportsOk(groups, reports, nextId, creator, name);
    forall v ensures |Owned(WithoutGroup(groups, creator, name), v)| <= MaxGroups {
      WithoutGroupOwned(groups, creator, name, v);
    }
    WithoutReportsApart(reports, FindByCreator(groups, creator, name).value.id);
  }

  // ---------------------------------------------------------------------------
  // reports
  // ---------------------------------------------------------------------------

  /** A first report of the day for an existing group keeps the tables valid
      and makes the day's report findable. */
  lemma CreateReportKeepsValid(users: map<int, User>, groups: seq<Group>, reports: seq<Report>, nextId: int,
                               group: int, date: Date, stored: string)
    requires TablesValid(users, groups, reports, nextId)
    requires group in GroupIds(groups) && ValidDate(date) && date.year <= 9999
    requires FindReport(reports, group, date).None?
    ensures TablesValid(users, groups, WithReport(reports, nextId, group, date, stored), nextId + 1)
  {
    var x := Report(nextId, group, date, stored);
    var rs := WithReport(reports, nextId, group, date, stored);
    assert rs == reports + [x];
    forall i | 0 <= i < |groups| ensures GroupOk(users, groups[i], nextId + 1) {
      assert GroupOk(users, groups[i], nextId);
    }
    forall i | 0 <= i < |rs| ensures ReportOk(groups, rs[i], nextId + 1) {
      if i < |reports| {
        assert ReportOk(groups, reports[i], nextId);
      }
    }
    forall i, j | 0 <= i < j < |rs|
      ensures rs[i].id != rs[j].id && !(rs[i].group == rs[j].group && rs[i].date == rs[j].date)
    {
      if j == |reports| {
        assert ReportOk(groups, reports[i], nextId);
        assert reports[i] in reports;
      }
    }
  }

  /** Overwriting the day's list keeps the tables valid. */
  lemma EditReportKeepsValid(users: map<int, User>, groups: seq<Group>, reports: seq<Report>, nextId: int,
                             group: int, date: Date, stored: string)
    requires TablesValid(users, groups, reports, nextId)
    ensures TablesValid(users, groups, WithReportMembers(reports, group, date, stored), nextId)
  {
    var rs := WithReportMembers(reports, group, date, stored);
    assert forall i :: 0 <= i < |rs| ==>
      rs[i].id == reports[i].id && rs[i].group == reports[i].group && rs[i].date == reports[i].date;
    SameKeysValid(groups, reports, rs, nextId);
  }
}
