/** The row updates the requests perform, as functions from the old tables
    to the new ones, with what each one changes and what it leaves alone. */
module Writes {
  import opened Wrappers
  import opened Text
  import opened Dates
  import opened Tables
  import opened Seqs

  // ---------------------------------------------------------------------------
  // users
  // ---------------------------------------------------------------------------

  /** `User_Requests.init`: a user is added with the default offset and no
      feedbacks, and only if absent. */
  function InitUser(users: map<int, User>, tg: int): (r: map<int, User>)
    ensures r.Keys == users.Keys + {tg}
    ensures forall k :: k in users ==> r[k] == users[k]
    ensures tg !in users ==> r[tg] == User(DefaultUtcOffset, 0)
  {
    if tg in users then users else users[tg := User(DefaultUtcOffset, 0)]
  }

  /** Running `init` twice is running it once. */
  lemma InitUserIdempotent(users: map<int, User>, tg: int)
    ensures InitUser(InitUser(users, tg), tg) == InitUser(users, tg)
  {
  }

  /** `User_Requests.set_utc_offset`: an UPDATE of the one user's offset;
      nothing happens to an unknown id. */
  function WithUtcOffset(users: map<int, User>, tg: int, offset: int): (r: map<int, User>)
    ensures r.Keys == users.Keys
    ensures forall k :: k in r ==>
      r[k].feedbacks == users[k].feedbacks
      && r[k].utcOffset == (if k == tg then offset else users[k].utcOffset)
  {
    if tg in users then users[tg := users[tg].(utcOffset := offset)] else users
  }

  /** `User_Requests.increase_feedbacks_cnt`. */
  function WithFeedbackCounted(users: map<int, User>, tg: int): (r: map<int, User>)
    ensures r.Keys == users.Keys
    ensures forall k :: k in r ==>
      r[k].utcOffset == users[k].utcOffset
      && r[k].feedbacks == (if k == tg then users[k].feedbacks + 1 else users[k].feedbacks)
  {
    if tg in users then users[tg := users[tg].(feedbacks := users[tg].feedbacks + 1)] else users
  }

  /** `User_Requests.reset_feedbacks_cnt`: every counter back to zero. */
  function WithFeedbacksReset(users: map<int, User>): (r: map<int, User>)
    ensures r.Keys == users.Keys
    ensures forall k :: k in r ==> r[k].utcOffset == users[k].utcOffset && r[k].feedbacks == 0
  {
    map k | k in users :: users[k].(feedbacks := 0)
  }

  // ---------------------------------------------------------------------------
  // Lookups over changed tables
  // ---------------------------------------------------------------------------

  lemma {:induction false} OwnedAppend(a: seq<Group>, b: seq<Group>, c: int)
    ensures Owned(a + b, c) == Owned(a, c) + Owned(b, c)
  {
    if a == [] {
      assert a + b == b;
    } else {
      assert (a + b)[1..] == a[1..] + b;
      OwnedAppend(a[1..], b, c);
    }
  }

  lemma {:induction false} FirstNamedAppend(a: seq<Group>, b: seq<Group>, n: string)
    ensures FirstNamed(a + b, n) == if FirstNamed(a, n).Some? then FirstNamed(a, n) else FirstNamed(b, n)
  {
    if a != [] {
      assert (a + b)[1..] == a[1..] + b;
      FirstNamedAppend(a[1..], b, n);
    } else {
      assert a + b == b;
    }
  }

  /** The first row of a list without repeated names is the only one. */
  lemma {:induction false} FirstNamedUnique(gs: seq<Group>, k: nat)
    requires k < |gs|
    requires forall i, j :: 0 <= i < j < |gs| ==> gs[i].name != gs[j].name
    ensures FirstNamed(gs, gs[k].name) == Some(gs[k])
  {
    if k > 0 {
      assert gs[0].name != gs[k].name;
      FirstNamedUnique(gs[1..], k - 1);
    }
  }

  // ---------------------------------------------------------------------------
  // groups
  // ---------------------------------------------------------------------------

  /** `Group_Requests.create`: a new row, its creator its recipient, no
      members. */
  function WithNewGroup(groups: seq<Group>, id: int, creator: int, name: string): seq<Group> {
    groups + [Group(id, creator, name, creator, "")]
  }

  /** A new group is found under its creator and name, its creator owns one
      group more, and nobody else's groups change. */
  lemma NewGroupEffect(groups: seq<Group>, id: int, creator: int, name: string)
    requires FindByCreator(groups, creator, name).None?
    ensures FindByCreator(WithNewGroup(groups, id, creator, name), creator, name)
      == Some(Group(id, creator, name, creator, ""))
    ensures |Owned(WithNewGroup(groups, id, creator, name), creator)| == |Owned(groups, creator)| + 1
    ensures forall v :: v != creator ==> Owned(WithNewGroup(groups, id, creator, name), v) == Owned(groups, v)
  {
    var g := Group(id, creator, name, creator, "");
    OwnedAppend(groups, [g], creator);
    assert Owned([g], creator) == [g];
    FirstNamedAppend(Owned(groups, creator), [g], name);
    forall v | v != creator ensures Owned(groups + [g], v) == Owned(groups, v) {
      OwnedAppend(groups, [g], v);
      assert Owned([g], v) == [];
    }
  }

  /** What an UPDATE of a group row sets. */
  datatype Change = SetMembers(stored: string) | SetRecipient(tg: int)

  function Apply(g: Group, c: Change): (r: Group)
    ensures r.id == g.id && r.creator == g.creator && r.name == g.name
  {
    match c
    case SetMembers(s) => g.(members := s)
    case SetRecipient(t) => g.(recipient := t)
  }

  predicate Keyed(g: Group, creator: int, name: string) {
    g.creator == creator && g.name == name
  }

  /** `UPDATE groups SET ... WHERE creator = creator AND name = name`. */
  function UpdateWhere(groups: seq<Group>, creator: int, name: string, c: Change): (r: seq<Group>)
    ensures |r| == |groups|
    ensures forall i :: 0 <= i < |groups| ==>
      r[i] == if Keyed(groups[i], creator, name) then Apply(groups[i], c) else groups[i]
  {
    if groups == [] then []
    else
      [if Keyed(groups[0], creator, name) then Apply(groups[0], c) else groups[0]]
      + UpdateWhere(groups[1..], creator, name, c)
  }

  lemma OwnedCons(h: Group, t: seq<Group>, v: int)
    ensures Owned([h] + t, v) == (if h.creator == v then [h] else []) + Owned(t, v)
  {
    assert ([h] + t)[0] == h && ([h] + t)[1..] == t;
  }

  lemma UpdateCons(h: Group, t: seq<Group>, creator: int, name: string, c: Change)
    ensures UpdateWhere([h] + t, creator, name, c)
            == [if Keyed(h, creator, name) then Apply(h, c) else h] + UpdateWhere(t, creator, name, c)
  {
    assert ([h] + t)[0] == h && ([h] + t)[1..] == t;
  }

  lemma {:induction false} UpdateOwned(groups: seq<Group>, creator: int, name: string, c: Change, v: int)
    ensures v != creator ==> Owned(UpdateWhere(groups, creator, name, c), v) == Owned(groups, v)
    ensures v == creator ==> Owned(UpdateWhere(groups, creator, name, c), v) == UpdateWhere(Owned(groups, v), creator, name, c)
  {
    if groups != [] {
      var h, t := groups[0], groups[1..];
      UpdateOwned(t, creator, name, c, v);
      var h' := if Keyed(h, creator, name) then Apply(h, c) else h;
      ConsSplit(groups);
      UpdateCons(h, t, creator, name, c);
      OwnedCons(h', UpdateWhere(t, creator, name, c), v);
      OwnedCons(h, t, v);
      if h.creator != v {
        EmptyAppend(Owned(t, v));
        EmptyAppend(Owned(UpdateWhere(t, creator, name, c), v));
      } else if v == creator {
        UpdateCons(h, Owned(t, v), creator, name, c);
      }
    }
  }

  lemma {:induction false} UpdateFirstNamed(gs: seq<Group>, creator: int, name: string, c: Change, n: string)
    requires forall g :: g in gs ==> g.creator == creator
    ensures FirstNamed(UpdateWhere(gs, creator, name, c), n) ==
      match FirstNamed(gs, n)
      case None => None
      case Some(g) => Some(if n == name then Apply(g, c) else g)
  {
    if gs != [] {
      var r := UpdateWhere(gs, creator, name, c);
      assert r[1..] == UpdateWhere(gs[1..], creator, name, c);
      UpdateFirstNamed(gs[1..], creator, name, c, n);
    }
  }

  /** The updated group is found changed. */
  lemma UpdateFound(groups: seq<Group>, creator: int, name: string, c: Change)
    ensures FindByCreator(UpdateWhere(groups, creator, name, c), creator, name) ==
      match FindByCreator(groups, creator, name)
      case None => None
      case Some(g) => Some(Apply(g, c))
  {
    UpdateOwned(groups, creator, name, c, creator);
    UpdateFirstNamed(Owned(groups, creator), creator, name, c, name);
  }

  /** The creator's other groups are found as before. */
  lemma UpdateOthersFound(groups: seq<Group>, creator: int, name: string, c: Change)
    ensures forall n :: n != name ==>
      FindByCreator(UpdateWhere(groups, creator, name, c), creator, n) == FindByCreator(groups, creator, n)
  {
    UpdateOwned(groups, creator, name, c, creator);
    forall n | n != name
      ensures FindByCreator(UpdateWhere(groups, creator, name, c), creator, n) == FindByCreator(groups, creator, n)
    {
      UpdateFirstNamed(Owned(groups, creator), creator, name, c, n);
    }
  }

  /** Nobody's groups grow or shrink, and other users' groups stay. */
  lemma UpdateOwnedAll(groups: seq<Group>, creator: int, name: string, c: Change)
    ensures forall v :: v != creator ==> Owned(UpdateWhere(groups, creator, name, c), v) == Owned(groups, v)
    ensures forall v :: |Owned(UpdateWhere(groups, creator, name, c), v)| == |Owned(groups, v)|
  {
    forall v ensures v != creator ==> Owned(UpdateWhere(groups, creator, name, c), v) == Owned(groups, v)
    {
      UpdateOwned(groups, creator, name, c, v);
    }
    forall v ensures |Owned(UpdateWhere(groups, creator, name, c), v)| == |Owned(groups, v)| {
      UpdateOwned(groups, creator, name, c, v);
    }
  }

  /** An UPDATE of one named group changes that group as asked, leaves every
      other lookup as it was, and nobody's number of groups changes. */
  lemma UpdateEffect(groups: seq<Group>, creator: int, name: string, c: Change)
    ensures FindByCreator(UpdateWhere(groups, creator, name, c), creator, name) ==
      match FindByCreator(groups, creator, name)
      case None => None
      case Some(g) => Some(Apply(g, c))
    ensures forall n :: n != name ==>
      FindByCreator(UpdateWhere(groups, creator, name, c), creator, n) == FindByCreator(groups, creator, n)
    ensures forall v :: v != creator ==> Owned(UpdateWhere(groups, creator, name, c), v) == Owned(groups, v)
    ensures forall v :: |Owned(UpdateWhere(groups, creator, name, c), v)| == |Owned(groups, v)|
  {
    UpdateFound(groups, creator, name, c);
    UpdateOthersFound(groups, creator, name, c);
    UpdateOwnedAll(groups, creator, name, c);
  }

  /** `add_member`'s new member field: the decoded list ("" meaning none)
      with the name appended, joined again. */
  function AppendMember(stored: string, member: string): string {
    Store(Members(stored) + [member])
  }

  /** Decoding the field after `add_member` gives the old list with the name
      appended, provided the name is not empty and holds no separator. */
  lemma AppendMemberDecodes(stored: string, member: string)
    requires member != "" && Storable(member)
    ensures Members(AppendMember(stored, member)) == Members(stored) + [member]
  {
    MembersStorable(stored);
    var names := Members(stored) + [member];
    assert names[|names| - 1] == member;
    MembersStore(names);
  }

  /** The first index of `x` in `xs`. */
  function IndexOf<T(==)>(xs: seq<T>, x: T): (k: nat)
    requires x in xs
    ensures k < |xs| && xs[k] == x && x !in xs[..k]
  {
    if xs[0] == x then 0
    else
      var k := IndexOf(xs[1..], x);
      assert xs[..k + 1] == [xs[0]] + xs[1..][..k];
      k + 1
  }

  /** `list.remove`: drops the first occurrence; the others keep their
      order. Python raises when the name is absent. */
  function RemoveFirst<T(==)>(xs: seq<T>, x: T): (r: seq<T>)
    requires x in xs
    ensures r == xs[..IndexOf(xs, x)] + xs[IndexOf(xs, x) + 1..]
  {
    if xs[0] == x then xs[1..]
    else
      var rest := RemoveFirst(xs[1..], x);
      var k := IndexOf(xs[1..], x);
      assert xs[..k + 1] == [xs[0]] + xs[1..][..k];
      assert xs[k + 2..] == xs[1..][k + 1..];
      [xs[0]] + rest
  }

  /** One occurrence fewer, nothing else lost or gained. */
  lemma RemoveFirstCount<T>(xs: seq<T>, x: T)
    requires x in xs
    ensures |RemoveFirst(xs, x)| == |xs| - 1
    ensures multiset(RemoveFirst(xs, x)) == multiset(xs) - multiset{x}
  {
    var k := IndexOf(xs, x);
    var before, after := xs[..k], xs[k + 1..];
    assert xs == before + [x] + after;
    assert multiset(xs) == multiset(before) + multiset{x} + multiset(after);
  }

  lemma RemoveFirstDistinct<T>(xs: seq<T>, x: T)
    requires x in xs && Distinct(xs)
    ensures Distinct(RemoveFirst(xs, x))
    ensures forall y :: y in RemoveFirst(xs, x) <==> y in xs && y != x
  {
    var r := RemoveFirst(xs, x);
    var k := IndexOf(xs, x);
    assert |r| == |xs| - 1;
    assert forall i :: 0 <= i < |r| ==> r[i] == xs[if i < k then i else i + 1];
    forall y ensures y in r <==> y in xs && y != x {
      if y in xs && y != x {
        var i :| 0 <= i < |xs| && xs[i] == y;
        assert r[if i < k then i else i - 1] == y;
      }
    }
  }

  /** `remove_member`'s new member field: split, first occurrence removed,
      joined again. */
  function StripMember(stored: string, member: string): string
    requires member in Split(stored, Sep)
  {
    Store(RemoveFirst(Split(stored, Sep), member))
  }

  /** Decoding the field after the removal gives the old list without the
      first occurrence of the name, the others in order; a list left empty is
      stored as "". */
  lemma StripMemberDecodes(stored: string, member: string)
    requires member in Members(stored) && "" !in Members(stored)
    ensures member in Split(stored, Sep)
    ensures Members(StripMember(stored, member)) == RemoveFirst(Members(stored), member)
    ensures RemoveFirst(Members(stored), member) == [] ==> StripMember(stored, member) == ""
  {
    RawSplit(stored);
    MembersStorable(stored);
    var ms := Members(stored);
    var r := RemoveFirst(ms, member);
    RemoveFirstCount(ms, member);
    forall k | 0 <= k < |r| ensures Storable(r[k]) && r[k] != "" {
      assert r[k] in multiset(r);
      assert r[k] in ms;
    }
    assert r != [""] by {
      if |r| == 1 {
        assert r[0] != "";
      }
    }
    MembersStore(r);
  }

  /** The index of the first row of that creator and name. */
  function FirstKeyed(groups: seq<Group>, creator: int, name: string): (r: Option<nat>)
    ensures r.Some? ==> r.value < |groups| && Keyed(groups[r.value], creator, name)
    ensures r.Some? ==> forall j :: 0 <= j < r.value ==> !Keyed(groups[j], creator, name)
    ensures r.None? ==> forall j :: 0 <= j < |groups| ==> !Keyed(groups[j], creator, name)
  {
    if groups == [] then None
    else if Keyed(groups[0], creator, name) then Some(0)
    else match FirstKeyed(groups[1..], creator, name)
      case None => None
      case Some(k) => Some(k + 1)
  }

  lemma {:induction false} OwnedNone(groups: seq<Group>, creator: int, name: string)
    requires forall j :: 0 <= j < |groups| ==> !Keyed(groups[j], creator, name)
    ensures FirstNamed(Owned(groups, creator), name).None?
  {
  }

  /** The row `get_by_creator` returns is the first keyed row. */
  lemma FirstKeyedFound(groups: seq<Group>, creator: int, name: string)
    ensures FindByCreator(groups, creator, name) ==
      match FirstKeyed(groups, creator, name)
      case None => None
      case Some(k) => Some(groups[k])
  {
    match FirstKeyed(groups, creator, name)
    case None =>
      OwnedNone(groups, creator, name);
    case Some(k) =>
      assert groups == groups[..k] + ([groups[k]] + groups[k + 1..]);
      OwnedAppend(groups[..k], [groups[k]] + groups[k + 1..], creator);
      OwnedAppend([groups[k]], groups[k + 1..], creator);
      assert Owned([groups[k]], creator) == [groups[k]];
      OwnedNone(groups[..k], creator, name);
      FirstNamedAppend(Owned(groups[..k], creator), Owned([groups[k]] + groups[k + 1..], creator), name);
  }

  /** `Group_Requests.delete`: the first row of that creator and name goes;
      the others keep their order. */
  function WithoutGroup(groups: seq<Group>, creator: int, name: string): seq<Group> {
    match FirstKeyed(groups, creator, name)
    case None => groups
    case Some(k) => groups[..k] + groups[k + 1..]
  }

  lemma OwnedCut(groups: seq<Group>, k: nat, v: int)
    requires k < |groups|
    ensures Owned(groups, v) == Owned(groups[..k], v) + Owned([groups[k]], v) + Owned(groups[k + 1..], v)
    ensures Owned(groups[..k] + groups[k + 1..], v) == Owned(groups[..k], v) + Owned(groups[k + 1..], v)
  {
    assert groups == groups[..k] + ([groups[k]] + groups[k + 1..]);
    OwnedAppend(groups[..k], [groups[k]] + groups[k + 1..], v);
    OwnedAppend([groups[k]], groups[k + 1..], v);
    OwnedAppend(groups[..k], groups[k + 1..], v);
  }

  /** Deleting a group takes one group from its creator and none from
      anybody else. */
  lemma WithoutGroupOwned(groups: seq<Group>, creator: int, name: string, v: int)
    requires FirstKeyed(groups, creator, name).Some?
    ensures v != creator ==> Owned(WithoutGroup(groups, creator, name), v) == Owned(groups, v)
    ensures v == creator ==> |Owned(WithoutGroup(groups, creator, name), v)| == |Owned(groups, v)| - 1
  {
    var k := FirstKeyed(groups, creator, name).value;
    var w := WithoutGroup(groups, creator, name);
    assert w == groups[..k] + groups[k + 1..];
    OwnedCut(groups, k, v);
    var one := Owned([groups[k]], v);
    assert one == (if groups[k].creator == v then [groups[k]] else []) + Owned([groups[k]][1..], v);
    assert [groups[k]][1..] == [];
  }

  /** The cascade: every report of group `id` goes with it. */
  function WithoutReportsOf(reports: seq<Report>, id: int): (r: seq<Report>)
    ensures forall x :: x in r <==> x in reports && x.group != id
    ensures |r| <= |reports|
  {
    if reports == [] then []
    else (if reports[0].group == id then [] else [reports[0]]) + WithoutReportsOf(reports[1..], id)
  }

  // ---------------------------------------------------------------------------
  // reports
  // ---------------------------------------------------------------------------

  /** A report of group `id` lists `member`. */
  predicate Lists(r: Report, id: int, member: string) {
    r.group == id && member in Split(r.members, Sep)
  }

  /** The report half of `remove_member`, as intended: every report of the
      group that lists the name loses its first occurrence. */
  function StripReports(reports: seq<Report>, id: int, member: string): (r: seq<Report>)
    ensures |r| == |reports|
    ensures forall i :: 0 <= i < |reports| ==>
      r[i] == if Lists(reports[i], id, member)
              then reports[i].(members := StripMember(reports[i].members, member))
              else reports[i]
  {
    if reports == [] then []
    else
      [if Lists(reports[0], id, member)
       then reports[0].(members := StripMember(reports[0].members, member))
       else reports[0]]
      + StripReports(reports[1..], id, member)
  }

  /** SQL `LIKE` without an escape character: `%` in the pattern matches
      any run of characters, `_` any one character, every other character
      itself. */
  predicate LikeMatch(s: string, p: string)
    decreases |s| + |p|
  {
    if p == [] then s == []
    else if p[0] == '%' then LikeMatch(s, p[1..]) || (s != [] && LikeMatch(s[1..], p))
    else s != [] && (p[0] == '_' || s[0] == p[0]) && LikeMatch(s[1..], p[1..])
  }

  /** A pattern `%` followed by `q` matches any text ending in a match of `q`. */
  lemma {:induction false} LikeSkip(a: string, t: string, q: string)
    requires LikeMatch(t, q)
    ensures LikeMatch(a + t, "%" + q)
    decreases |a|
  {
    if a == [] {
      assert a + t == t;
      assert ("%" + q)[1..] == q;
    } else {
      LikeSkip(a[1..], t, q);
      assert (a + t)[1..] == a[1..] + t;
      assert ("%" + q)[0] == '%';
    }
  }

  /** A pattern matches, before a trailing `%`, every text of its length that
      agrees with it outside its wildcards. */
  lemma {:induction false} LikeAgrees(s: string, m: string, rest: string)
    requires |s| == |m|
    requires forall k :: 0 <= k < |m| ==> m[k] == '_' || m[k] == '%' || s[k] == m[k]
    ensures LikeMatch(s + rest, m + "%")
    decreases |m|
  {
    if m == [] {
      assert s + rest == rest && m + "%" == "%";
      LikePercent(rest);
    } else {
      LikeAgrees(s[1..], m[1..], rest);
      assert (s + rest)[1..] == s[1..] + rest;
      assert (m + "%")[1..] == m[1..] + "%";
      if m[0] == '%' {
        assert LikeMatch((s + rest)[1..], (m + "%")[1..]);
        assert LikeMatch((s + rest)[1..], m + "%");
      }
    }
  }

  /** A lone `%` matches every text. */
  lemma {:induction false} LikePercent(s: string)
    ensures LikeMatch(s, "%")
    decreases |s|
  {
    assert "%"[1..] == [];
    if s != [] {
      LikePercent(s[1..]);
    }
  }

  /** `member LIKE '%name%'` holds of every text that contains the name. */
  lemma LikeContains(s: string, member: string)
    requires Contains(s, member)
    ensures LikeMatch(s, "%" + member + "%")
  {
    var i: nat :| i <= |s| && OccursAt(s, member, i);
    var t := s[i..];
    assert t[..|member|] == member;
    LikeAgrees(t[..|member|], member, t[|member|..]);
    assert t[..|member|] + t[|member|..] == t;
    LikeSkip(s[..i], t, member + "%");
    assert s[..i] + t == s;
    assert "%" + (member + "%") == "%" + member + "%";
  }

  /** The report half of `remove_member` as written: the group's rows whose
      stored text matches `members LIKE '%member%'` each lose the name by
      `list.remove`. A selected row that does not list the exact name (it
      holds it inside a longer one, or matches only through a `_` or `%` of
      the name) makes `list.remove` raise, and the request then commits
      nothing: `None`. */
  function StripReportsAsWritten(reports: seq<Report>, id: int, member: string): (r: Option<seq<Report>>)
    ensures r.Some? ==> |r.value| == |reports|
  {
    if reports == [] then Some([])
    else
      var x := reports[0];
      var selected := x.group == id && LikeMatch(x.members, "%" + member + "%");
      if selected && member !in Split(x.members, Sep) then None
      else
        match StripReportsAsWritten(reports[1..], id, member)
        case None => None
        case Some(rest) => Some([if selected then x.(members := StripMember(x.members, member)) else x] + rest)
  }

  /** Removing "Ann" from a group whose report lists only "Anna": the row is
      selected, `list.remove` raises and nothing is removed, where the
      intended update leaves that report as it is. */
  lemma LikeSelectsLongerName(d: Date)
    ensures StripReportsAsWritten([Report(0, 1, d, "Anna")], 1, "Ann") == None
    ensures StripReports([Report(0, 1, d, "Anna")], 1, "Ann") == [Report(0, 1, d, "Anna")]
  {
    assert OccursAt("Anna", "Ann", 0);
    LikeContains("Anna", "Ann");
    forall i: nat | i <= 4 ensures !OccursAt("Anna", Sep, i) {
      if i + 2 <= 4 {
        assert "Anna"[i..i + 2][0] == "Anna"[i];
      }
    }
    SplitNoSep("Anna", Sep);
    assert Split("Anna", Sep) == ["Anna"];
    assert !Lists(Report(0, 1, d, "Anna"), 1, "Ann");
  }

  /** A name with `_` selects, through the wildcard, a report that lists a
      different name: removing "Анна_Мария" while a report lists only
      "Анна-Мария" makes `list.remove` raise, where the intended update
      leaves that report as it is. */
  lemma LikeWildcardSelects(d: Date)
    ensures StripReportsAsWritten([Report(0, 1, d, "Анна-Мария")], 1, "Анна_Мария") == None
    ensures StripReports([Report(0, 1, d, "Анна-Мария")], 1, "Анна_Мария") == [Report(0, 1, d, "Анна-Мария")]
  {
    var s := "Анна-Мария";
    var m := "Анна_Мария";
    LikeAgrees(s, m, "");
    LikeSkip("", s + "", m + "%");
    assert "" + (s + "") == s;
    assert "%" + (m + "%") == "%" + m + "%";
    forall i: nat | i <= |s| ensures !OccursAt(s, Sep, i) {
      if i + 2 <= |s| {
        assert s[i..i + 2][0] == s[i];
      }
    }
    SplitNoSep(s, Sep);
    assert Split(s, Sep) == [s];
    assert m != s by { assert m[4] != s[4]; }
    assert !Lists(Report(0, 1, d, s), 1, m);
  }

  /** `Report_Requests.create`: a new report row. */
  function WithReport(reports: seq<Report>, id: int, group: int, date: Date, stored: string): seq<Report> {
    reports + [Report(id, group, date, stored)]
  }

  /** `Report_Requests.edit`: `UPDATE reports SET members WHERE group AND date`. */
  function WithReportMembers(reports: seq<Report>, group: int, date: Date, stored: string): (r: seq<Report>)
    ensures |r| == |reports|
    ensures forall i :: 0 <= i < |reports| ==>
      r[i] == if reports[i].group == group && reports[i].date == date
              then reports[i].(members := stored)
              else reports[i]
  {
    if reports == [] then []
    else
      [if reports[0].group == group && reports[0].date == date then reports[0].(members := stored) else reports[0]]
      + WithReportMembers(reports[1..], group, date, stored)
  }

  /** After the upsert the day's report is found and holds the new list,
      whichever branch ran. */
  lemma UpsertFound(reports: seq<Report>, id: int, group: int, date: Date, stored: string)
    ensures var r := if FindReport(reports, group, date).None?
                     then WithReport(reports, id, group, date, stored)
                     else WithReportMembers(reports, group, date, stored);
      FindReport(r, group, date).Some? && FindReport(r, group, date).value.members == stored
  {
    if FindReport(reports, group, date).None? {
      FindReportAppend(reports, Report(id, group, date, stored));
    } else {
      var x := FindReport(reports, group, date).value;
      var k :| 0 <= k < |reports| && reports[k] == x;
      var r := WithReportMembers(reports, group, date, stored);
      assert r[k] in r;
      EditedRows(reports, group, date, stored);
    }
  }

  /** After the edit every row of the group and day holds the new list. */
  lemma EditedRows(reports: seq<Report>, group: int, date: Date, stored: string)
    ensures forall x :: x in WithReportMembers(reports, group, date, stored) && x.group == group && x.date == date
                        ==> x.members == stored
  {
    var r := WithReportMembers(reports, group, date, stored);
    forall x | x in r && x.group == group && x.date == date ensures x.members == stored {
      var j :| 0 <= j < |r| && r[j] == x;
    }
  }

  lemma {:induction false} FindReportAppend(reports: seq<Report>, x: Report)
    requires FindReport(reports, x.group, x.date).None?
    ensures FindReport(reports + [x], x.group, x.date) == Some(x)
  {
    if reports != [] {
      assert (reports + [x])[1..] == reports[1..] + [x];
      FindReportAppend(reports[1..], x);
    }
  }
}
