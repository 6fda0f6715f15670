/** The per-user conversation state, what each step may assume of the
    tables, and the bot object the handlers work on.

    A user's state is one of the steps of `handlers/states.py`, carrying the
    flow data (`state.update_data`) the later steps read. A user with no
    state has no entry in the map. */
module Conversation {
  import opened Wrappers
  import opened Text
  import opened Tables
  import opened Writes
  import opened Requests
  import opened Messages

  datatype Flow =
    | UtcOffsetStep
    | CreateGroupNameStep
    | AddMembersGroupStep
    | AddMembersNamesStep(group: string)
    | DeleteGroupNameStep
    | DeleteConfirmStep(group: string)
    | RemoveMembersGroupStep
    | RemoveMembersNamesStep(group: string)
    | AssignGroupStep
    | AssignRecipientStep(group: string)
    | ReportGroupStep
    | ReportPickStep(group: string, picked: seq<string>)
    | StatisticsGroupStep
    | StatisticsPeriodStep(group: string)

  /** A reply to the user who wrote (`message.answer`, `callback.answer`),
      possibly with a reply keyboard of `options` or inline buttons carrying
      `data`, or a message to another chat (`send_message`). */
  datatype Outbound =
    | Answer(text: string)
    | Menu(text: string, options: seq<string>)
    | Buttons(text: string, data: seq<string>)
    | Notify(chat: int, text: string)

  /** What the flow of user `u` may rely on: the user is registered (every
      entry command but `/setutcoffset` looks the user up), a group the flow
      names still exists, the name step of `/creategroup` has a free slot and
      the member step of `/addmembers` a group below 25 names, and the names
      picked for a report are distinct. */
  predicate FlowOk(users: map<int, User>, groups: seq<Group>, u: int, f: Flow) {
    match f
    case UtcOffsetStep => true
    case CreateGroupNameStep => u in users && |Owned(groups, u)| < MaxGroups
    case AddMembersNamesStep(g) =>
      u in users && FindByCreator(groups, u, g).Some?
      && |Members(FindByCreator(groups, u, g).value.members)| < MaxMembers
    case DeleteConfirmStep(g) => u in users && FindByCreator(groups, u, g).Some?
    case RemoveMembersNamesStep(g) => u in users && FindByCreator(groups, u, g).Some?
    case AssignRecipientStep(g) => u in users && FindByCreator(groups, u, g).Some?
    case ReportPickStep(g, picked) => u in users && FindByCreator(groups, u, g).Some? && Distinct(picked)
    case _ => u in users
  }

  /** Every flow's assumptions hold. */
  predicate FlowsOk(conv: map<int, Flow>, users: map<int, User>, groups: seq<Group>) {
    forall v :: v in conv ==> FlowOk(users, groups, v, conv[v])
  }

  /** Every flow's assumptions hold, except perhaps `u`'s. */
  predicate OthersOk(conv: map<int, Flow>, users: map<int, User>, groups: seq<Group>, u: int) {
    forall v :: v in conv && v != u ==> FlowOk(users, groups, v, conv[v])
  }

  /** A request by `u` keeps every registration and every other user's
      groups. */
  ghost predicate Kept(users0: map<int, User>, groups0: seq<Group>, users1: map<int, User>, groups1: seq<Group>, u: int) {
    users0.Keys <= users1.Keys && forall v :: v != u ==> Owned(groups1, v) == Owned(groups0, v)
  }

  /** Another user's request leaves a flow's assumptions true. */
  lemma ConvKept(conv: map<int, Flow>, users0: map<int, User>, groups0: seq<Group>,
                 users1: map<int, User>, groups1: seq<Group>, u: int)
    requires FlowsOk(conv, users0, groups0)
    requires Kept(users0, groups0, users1, groups1, u)
    ensures OthersOk(conv, users1, groups1, u)
  {
    forall v | v in conv && v != u ensures FlowOk(users1, groups1, v, conv[v]) {
      assert Owned(groups1, v) == Owned(groups0, v);
    }
  }

  /** A request that only registers users or changes their rows leaves
      every flow's assumptions true. */
  lemma ConvSameGroups(conv: map<int, Flow>, users0: map<int, User>, users1: map<int, User>, groups: seq<Group>)
    requires FlowsOk(conv, users0, groups)
    requires users0.Keys <= users1.Keys
    ensures FlowsOk(conv, users1, groups)
  {
    forall v | v in conv ensures FlowOk(users1, groups, v, conv[v]) {
      assert FlowOk(users0, groups, v, conv[v]);
    }
  }

  /** Moving `u` to a step whose assumptions hold, or ending `u`'s flow,
      keeps every flow's assumptions. */
  lemma ConvSet(conv: map<int, Flow>, users: map<int, User>, groups: seq<Group>, u: int, f: Flow,
                conv1: map<int, Flow>)
    requires OthersOk(conv, users, groups, u)
    requires FlowOk(users, groups, u, f) && conv1 == conv[u := f]
    ensures FlowsOk(conv1, users, groups)
  {
  }

  lemma ConvEnd(conv: map<int, Flow>, users: map<int, User>, groups: seq<Group>, u: int, conv1: map<int, Flow>)
    requires OthersOk(conv, users, groups, u)
    requires conv1 == conv - {u}
    ensures FlowsOk(conv1, users, groups)
  {
  }

  /** Only `u`'s groups change by these writes. */
  lemma NewGroupKept(users: map<int, User>, groups: seq<Group>, id: int, u: int, name: string)
    requires FindByCreator(groups, u, name).None?
    ensures Kept(users, groups, users, WithNewGroup(groups, id, u, name), u)
  {
    NewGroupEffect(groups, id, u, name);
  }

  lemma UpdateKept(users: map<int, User>, groups: seq<Group>, u: int, name: string, c: Change)
    ensures Kept(users, groups, users, UpdateWhere(groups, u, name, c), u)
  {
    UpdateEffect(groups, u, name, c);
  }

  lemma DeleteKept(users: map<int, User>, groups: seq<Group>, u: int, name: string)
    requires FindByCreator(groups, u, name).Some?
    ensures Kept(users, groups, users, WithoutGroup(groups, u, name), u)
  {
    FirstKeyedFound(groups, u, name);
    forall v | v != u ensures Owned(WithoutGroup(groups, u, name), v) == Owned(groups, v) {
      WithoutGroupOwned(groups, u, name, v);
    }
  }

  class Bot {
    /** The FSM storage: the step each user is at. */
    var conv: map<int, Flow>
    /** The database the requests read and write. */
    const db: Database

    ghost predicate Valid()
      reads this, db
    {
      db.Valid() && FlowsOk(conv, db.users, db.groups)
    }

    /** A fresh bot: empty tables, nobody in a flow. */
    constructor()
      ensures conv == map[] && db.State() == Snapshot(map[], [], [], 0)
      ensures Valid()
    {
      conv := map[];
      db := new Database();
    }

    /** Ends `u`'s flow; the other users' flows stay where they are. */
    method Finish(u: int)
      requires db.Valid() && OthersOk(conv, db.users, db.groups, u)
      modifies this
      ensures unchanged(db)
      ensures Valid() && conv == old(conv) - {u}
    {
      ConvEnd(conv, db.users, db.groups, u, conv - {u});
      conv := conv - {u};
    }
  }

  /** The steps an owner's entry command opens. */
  predicate OwnerEntry(step: Flow) {
    step.AddMembersGroupStep? || step.DeleteGroupNameStep? || step.RemoveMembersGroupStep?
    || step.AssignGroupStep? || step.ReportGroupStep?
  }

  /** The entry commands that offer the caller's groups: an unregistered
      caller raises in the lookup (no reply, nothing changes); a caller who
      owns no group gets `refusal`; otherwise the caller's group names,
      sorted, are offered and the flow opens at `step`. */
  method OpenOwnerFlow(b: Bot, u: int, refusal: string, step: Flow) returns (out: seq<Outbound>)
    requires b.Valid() && OwnerEntry(step)
    modifies b
    ensures unchanged(b.db)
    ensures b.Valid()
    ensures if u !in b.db.users then out == [] && b.conv == old(b.conv)
            else if Owned(b.db.groups, u) == [] then out == [Answer(refusal)] && b.conv == old(b.conv)
            else out == [Menu(ChooseGroupText, GroupsWhereCreator(b.db.groups, u))]
                 && b.conv == old(b.conv)[u := step]
  {
    if u !in b.db.users {
      return [];
    }
    var names := GroupsWhereCreator(b.db.groups, u);
    CreatorNamesCount(b.db.groups, u);
    if names == [] {
      return [Answer(refusal)];
    }
    ConvSet(b.conv, b.db.users, b.db.groups, u, step, b.conv[u := step]);
    b.conv := b.conv[u := step];
    out := [Menu(ChooseGroupText, names)];
  }
}
