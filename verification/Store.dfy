/** internal/store/store.go: every method is one statement or transaction on
    the two tables; a call may also fail, with or without its effect. */
module Store {
  import opened Wrappers
  import opened Uuids
  import opened Schema
  import opened Pagination
  import opened Keyset
  import opened Query
  import opened Worlds

  datatype UpdateGroupInput = UpdateGroupInput(id: Uuid, name: Option<string>, description: Option<string>)
  datatype ListGroupsFilter = ListGroupsFilter(organizationId: Uuid, source: Option<GroupSource>)
  datatype ListMembersFilter = ListMembersFilter(groupId: Uuid, memberType: Option<MemberType>)
  datatype ListMemberGroupsFilter =
    ListMemberGroupsFilter(memberType: MemberType, memberId: Uuid, organizationId: Uuid)

  function GroupKey(g: Group): int { Rank(g.id) }
  function MembershipKey(m: Membership): int { Rank(m.id) }

  /** The rows each listing is about, said directly. */
  function GroupsMatching(groups: Groups, f: ListGroupsFilter): set<Group> {
    set id | id in groups && groups[id].organizationId == f.organizationId
             && (f.source.Some? ==> groups[id].source == f.source.value) :: groups[id]
  }

  function MembersMatching(members: Memberships, f: ListMembersFilter): Memberships {
    set m | m in members && m.groupId == f.groupId && (f.memberType.Some? ==> m.memberType == f.memberType.value)
  }

  function GroupsOfMember(groups: Groups, members: Memberships, f: ListMemberGroupsFilter): set<Group> {
    set m | m in members && m.groupId in groups && m.memberType == f.memberType && m.memberId == f.memberId
            && groups[m.groupId].organizationId == f.organizationId :: groups[m.groupId]
  }

  /** The row an update leaves behind. */
  function Updated(g: Group, input: UpdateGroupInput): Group {
    g.(name := if input.name.Some? then input.name.value else g.name,
       description := if input.description.Some? then input.description.value else g.description)
  }

  /** Another row already holds what the update would make unique. */
  predicate UpdateClash(groups: Groups, row: Group) {
    exists id :: id in groups && id != row.id && Clash(groups[id], row)
  }

  lemma NoClashAsIs(groups: Groups, id: Uuid)
    requires ValidGroups(groups) && id in groups
    ensures !UpdateClash(groups, groups[id])
  {
  }

  /** The fields a request names have its values, every other field its old one. */
  ghost predicate SetsExactly(before: Group, input: UpdateGroupInput, after: Group) {
    && (input.name.Some? ==> after.name == input.name.value)
    && (input.name.None? ==> after.name == before.name)
    && (input.description.Some? ==> after.description == input.description.value)
    && (input.description.None? ==> after.description == before.description)
    && after.id == before.id && after.organizationId == before.organizationId
    && after.source == before.source && after.externalId == before.externalId
  }

  /** Another group of its organization and source has the name asked for. */
  ghost predicate NameTaken(groups: Groups, input: UpdateGroupInput)
    requires input.id in groups
  {
    && input.name.Some?
    && exists id :: id in groups && id != input.id && groups[id].organizationId == groups[input.id].organizationId
                    && groups[id].source == groups[input.id].source && groups[id].name == input.name.value
  }

  /** Of the constraints, only the name can stand in the way of an update. */
  lemma OnlyNamesClash(groups: Groups, input: UpdateGroupInput)
    requires ValidGroups(groups) && input.id in groups
    ensures UpdateClash(groups, Updated(groups[input.id], input)) <==> NameTaken(groups, input)
  {
    var row := Updated(groups[input.id], input);
    forall id | id in groups && id != input.id
      ensures Clash(groups[id], row) <==>
              input.name.Some? && groups[id].organizationId == groups[input.id].organizationId
              && groups[id].source == groups[input.id].source && groups[id].name == input.name.value {
      assert !Clash(groups[id], groups[input.id]);
    }
  }

  // ----- the tables as the queries see them --------------------------------------------

  function GroupView(g: Group): Row { GroupRow(g) }
  function MembershipView(m: Membership): Row { MembershipRow(m) }
  function JoinView(p: (Group, Membership)): Row { JoinRow(p.0, p.1) }
  function JoinKey(p: (Group, Membership)): int { Rank(p.0.id) }

  function JoinGroup(p: (Group, Membership)): Group { p.0 }

  function GroupRows(groups: Groups): set<Group> {
    set id | id in groups :: groups[id]
  }

  /** groups JOIN group_memberships ON groups.id = group_memberships.group_id */
  function JoinRows(groups: Groups, members: Memberships): set<(Group, Membership)> {
    set m | m in members && m.groupId in groups :: (groups[m.groupId], m)
  }

  lemma GroupsKeyed(groups: Groups, rows: set<Group>)
    requires ValidGroups(groups) && rows <= GroupRows(groups)
    ensures Keyed(rows, GroupKey)
  {
    forall a, b | a in rows && b in rows && GroupKey(a) == GroupKey(b) ensures a == b {
      RankInjective(a.id, b.id);
      assert a in GroupRows(groups) && b in GroupRows(groups);
    }
  }

  lemma MembershipsKeyed(groups: Groups, members: Memberships, rows: Memberships)
    requires ValidMemberships(groups, members) && rows <= members
    ensures Keyed(rows, MembershipKey)
  {
    forall a, b | a in rows && b in rows && MembershipKey(a) == MembershipKey(b) ensures a == b {
      RankInjective(a.id, b.id);
    }
  }

  /** Because (group_id, member_id) is unique, the join holds a group at most
      once for one member: paging on groups.id can neither skip nor repeat it. */
  lemma JoinKeyedForMember(groups: Groups, members: Memberships, rows: set<(Group, Membership)>, memberId: Uuid)
    requires ValidTables(groups, members) && rows <= JoinRows(groups, members)
    requires forall p :: p in rows ==> p.1.memberId == memberId
    ensures Keyed(rows, JoinKey)
    ensures forall p, p' :: p in rows && p' in rows && p.0 == p'.0 ==> p == p'
  {
    forall p, p' | p in rows && p' in rows && JoinKey(p) == JoinKey(p') ensures p == p' {
      RankInjective(p.0.id, p'.0.id);
      assert p in JoinRows(groups, members) && p' in JoinRows(groups, members);
      assert p.1.groupId == p'.1.groupId;
    }
  }

  lemma OneClause(c: Clause, value: Value, r: Row)
    ensures Matches([c], [value], r) <==> Holds(c, [value], r)
  {
    assert [c][0] == c;
  }

  /** The compiled clauses of each listing select exactly the rows it is about. */
  lemma GroupClausesExact(groups: Groups, f: ListGroupsFilter, clauses: seq<Clause>, args: seq<Value>)
    requires forall r :: Matches(clauses, args, r) <==>
               && Matches([Clause(Plain(OrganizationId), Equals, 1)], [UuidValue(f.organizationId)], r)
               && (f.source.Some? ==> Holds(Clause(Plain(Source), Equals, 1), [SourceValue(f.source.value)], r))
    ensures Selected(GroupRows(groups), GroupView, clauses, args) == GroupsMatching(groups, f)
  {
    forall g: Group ensures Matches(clauses, args, GroupView(g))
             <==> g.organizationId == f.organizationId && (f.source.Some? ==> g.source == f.source.value) {
      OneClause(Clause(Plain(OrganizationId), Equals, 1), UuidValue(f.organizationId), GroupView(g));
    }
  }

  lemma MemberClausesExact(members: Memberships, f: ListMembersFilter, clauses: seq<Clause>, args: seq<Value>)
    requires forall r :: Matches(clauses, args, r) <==>
               && Matches([Clause(Plain(GroupId), Equals, 1)], [UuidValue(f.groupId)], r)
               && (f.memberType.Some? ==>
                     Holds(Clause(Plain(MemberTypeField), Equals, 1), [MemberTypeValue(f.memberType.value)], r))
    ensures Selected(members, MembershipView, clauses, args) == MembersMatching(members, f)
  {
    forall m: Membership ensures Matches(clauses, args, MembershipView(m))
             <==> m.groupId == f.groupId && (f.memberType.Some? ==> m.memberType == f.memberType.value) {
      OneClause(Clause(Plain(GroupId), Equals, 1), UuidValue(f.groupId), MembershipView(m));
    }
  }

  function JoinClauses(): seq<Clause> {
    [Clause(Qualified(MembershipsTable, MemberTypeField), Equals, 1),
     Clause(Qualified(MembershipsTable, MemberId), Equals, 2),
     Clause(Qualified(GroupsTable, OrganizationId), Equals, 3)]
  }

  function JoinArgs(f: ListMemberGroupsFilter): seq<Value> {
    [MemberTypeValue(f.memberType), UuidValue(f.memberId), UuidValue(f.organizationId)]
  }

  lemma JoinClausesExact(f: ListMemberGroupsFilter, p: (Group, Membership))
    ensures Matches(JoinClauses(), JoinArgs(f), JoinView(p))
       <==> p.1.memberType == f.memberType && p.1.memberId == f.memberId && p.0.organizationId == f.organizationId
  {
    var cs := JoinClauses();
    assert forall i :: 0 <= i < |cs| ==> cs[i] == cs[0] || cs[i] == cs[1] || cs[i] == cs[2];
    assert Matches(cs, JoinArgs(f), JoinView(p)) <==>
        Holds(cs[0], JoinArgs(f), JoinView(p)) && Holds(cs[1], JoinArgs(f), JoinView(p))
        && Holds(cs[2], JoinArgs(f), JoinView(p));
  }

  /** An unqualified `id` would be ambiguous in the join; the cursor column is qualified. */
  lemma PlainIdIsAmbiguous(p: (Group, Membership))
    ensures Resolve(JoinView(p), Plain(Id)) == None
    ensures Resolve(JoinView(p), Qualified(GroupsTable, Id)) == Some(UuidValue(p.0.id))
  {
  }

  /** Scanning one side out of rows that it determines keeps a page a page. */
  lemma PageThroughScan<S(!new), T(!new)>(rows: set<S>, table: set<T>, scan: S -> T, rowKey: S -> int, key: T -> int,
                                    cursor: Option<int>, limit: nat, page: seq<S>, items: seq<T>, next: Option<int>)
    requires table == set r | r in rows :: scan(r)
    requires forall r :: r in rows ==> rowKey(r) == key(scan(r))
    requires forall a, b :: a in rows && b in rows && scan(a) == scan(b) ==> a == b
    requires IsPage(rows, rowKey, cursor, limit, page, next)
    requires |items| == |page| && forall i :: 0 <= i < |page| ==> items[i] == scan(page[i])
    ensures IsPage(table, key, cursor, limit, items, next)
  {
    var aboveRows, above := Above(rows, rowKey, cursor), Above(table, key, cursor);
    forall r | r in aboveRows ensures scan(r) in above && (scan(r) in items <==> r in page) {
      ScannedItem(rows, scan, page, items, r);
    }
    forall t | t in above ensures exists r :: r in aboveRows && scan(r) == t {
      var r :| r in rows && scan(r) == t;
      assert r in aboveRows;
    }
    ScanKeepsFirst(aboveRows, above, scan, rowKey, key, limit, page, items);
  }

  lemma ScannedItem<S(!new), T(!new)>(rows: set<S>, scan: S -> T, page: seq<S>, items: seq<T>, r: S)
    requires forall a, b :: a in rows && b in rows && scan(a) == scan(b) ==> a == b
    requires (forall x :: x in page ==> x in rows) && r in rows
    requires |items| == |page| && forall i :: 0 <= i < |page| ==> items[i] == scan(page[i])
    ensures scan(r) in items <==> r in page
  {
  }

  lemma ScanKeepsFirst<S(!new), T(!new)>(aboveRows: set<S>, above: set<T>, scan: S -> T, rowKey: S -> int,
                                         key: T -> int, limit: nat, page: seq<S>, items: seq<T>)
    requires forall r :: r in aboveRows ==>
               scan(r) in above && (scan(r) in items <==> r in page) && rowKey(r) == key(scan(r))
    requires forall t :: t in above ==> exists r :: r in aboveRows && scan(r) == t
    requires FirstOf(page, aboveRows, rowKey, limit)
    requires |items| == |page| && forall i :: 0 <= i < |page| ==> items[i] == scan(page[i])
    ensures FirstOf(items, above, key, limit)
  {
  }

  /** The join rows a listing selects, and what makes them fit for keyset paging. */
  lemma JoinSelection(groups: Groups, members: Memberships, f: ListMemberGroupsFilter)
    requires ValidTables(groups, members)
    ensures var selected := Selected(JoinRows(groups, members), JoinView, JoinClauses(), JoinArgs(f));
            && Keyed(selected, JoinKey)
            && (forall p, p' :: p in selected && p' in selected && p.0 == p'.0 ==> p == p')
            && (set p | p in selected :: p.0) == GroupsOfMember(groups, members, f)
  {
    var selected := Selected(JoinRows(groups, members), JoinView, JoinClauses(), JoinArgs(f));
    forall p ensures Matches(JoinClauses(), JoinArgs(f), JoinView(p)) <==>
        p.1.memberType == f.memberType && p.1.memberId == f.memberId && p.0.organizationId == f.organizationId {
      JoinClausesExact(f, p);
    }
    JoinKeyedForMember(groups, members, selected, f.memberId);
    forall g ensures g in (set p | p in selected :: p.0) <==> g in GroupsOfMember(groups, members, f) {
      if g in GroupsOfMember(groups, members, f) {
        var m :| m in members && m.groupId in groups && m.memberType == f.memberType && m.memberId == f.memberId
          && groups[m.groupId].organizationId == f.organizationId && g == groups[m.groupId];
        assert (groups[m.groupId], m) in selected;
      }
    }
  }

  lemma JoinOrdered(groups: Groups, members: Memberships)
    ensures OrderedBy(JoinRows(groups, members), JoinView, JoinKey, Qualified(GroupsTable, Id))
  {
    hide Rank;
  }

  lemma JoinPage(groups: Groups, members: Memberships, f: ListMemberGroupsFilter, cursor: Option<int>, limit: nat,
                 rows: seq<(Group, Membership)>, items: seq<Group>, next: Option<int>)
    requires ValidTables(groups, members)
    requires IsPage(Selected(JoinRows(groups, members), JoinView, JoinClauses(), JoinArgs(f)),
                    JoinKey, cursor, limit, rows, next)
    requires |items| == |rows| && forall i :: 0 <= i < |rows| ==> items[i] == rows[i].0
    ensures IsPage(GroupsOfMember(groups, members, f), GroupKey, cursor, limit, items, next)
  {
    var selected := Selected(JoinRows(groups, members), JoinView, JoinClauses(), JoinArgs(f));
    JoinSelection(groups, members, f);
    assert (set p | p in selected :: JoinGroup(p)) == set p | p in selected :: p.0;
    PageThroughScan(selected, GroupsOfMember(groups, members, f), JoinGroup, JoinKey, GroupKey,
                    cursor, limit, rows, items, next);
  }

  /** A group is in exactly the listings of its organization: the full one and its source's. */
  lemma GroupListedWhereItBelongs(groups: Groups, id: Uuid, f: ListGroupsFilter)
    requires ValidGroups(groups) && id in groups
    ensures groups[id] in GroupsMatching(groups, f) <==>
            groups[id].organizationId == f.organizationId && (f.source == None || f.source == Some(groups[id].source))
    ensures forall g :: g in GroupsMatching(groups, f) ==> g.id in groups && groups[g.id] == g
  {
  }

  /** A membership is in exactly the listings of its group: the full one and its type's. */
  lemma MemberListedWhereItBelongs(members: Memberships, m: Membership, f: ListMembersFilter)
    ensures m in MembersMatching(members, f) <==>
            m in members && m.groupId == f.groupId && (f.memberType == None || f.memberType == Some(m.memberType))
  {
  }

  /** Listing a member's groups and listing groups' members are two views of one relation. */
  lemma ListingsAreDual(groups: Groups, members: Memberships, id: Uuid, f: ListMemberGroupsFilter)
    requires ValidTables(groups, members) && id in groups
    ensures groups[id] in GroupsOfMember(groups, members, f) <==>
            && groups[id] in GroupsMatching(groups, ListGroupsFilter(f.organizationId, None))
            && exists m :: m in MembersMatching(members, ListMembersFilter(id, Some(f.memberType)))
                           && m.memberId == f.memberId
  {
    GroupListedWhereItBelongs(groups, id, ListGroupsFilter(f.organizationId, None));
    if m :| m in MembersMatching(members, ListMembersFilter(id, Some(f.memberType))) && m.memberId == f.memberId {
      assert groups[m.groupId] == groups[id];
    }
    if groups[id] in GroupsOfMember(groups, members, f) {
      var m :| m in members && m.groupId in groups && m.memberType == f.memberType && m.memberId == f.memberId
               && groups[m.groupId].organizationId == f.organizationId && groups[m.groupId] == groups[id];
      assert m in MembersMatching(members, ListMembersFilter(id, Some(f.memberType)));
    }
  }

  /** Following cursors through any of the group listings, while groups and
      memberships come and go, returns a group that was listed throughout once. */
  lemma GroupReturnedOnce(fs: seq<Fetch<Group>>, id: Uuid)
    requires IsFullTraversal(fs, GroupKey)
    requires forall i :: 0 <= i < |fs| ==> exists g :: g in fs[i].table && g.id == id
    ensures exists i :: 0 <= i < |Returned(fs)| && Returned(fs)[i].id == id
                     && forall j :: 0 <= j < |Returned(fs)| && Returned(fs)[j].id == id ==> j == i
  {
    forall i | 0 <= i < |fs| ensures Carries(fs[i].table, GroupKey, Rank(id)) {
      var g :| g in fs[i].table && g.id == id;
      assert GroupKey(g) == Rank(id);
    }
    ReturnedExactlyOnce(fs, GroupKey, Rank(id));
    forall g: Group | GroupKey(g) == Rank(id) ensures g.id == id {
      RankInjective(g.id, id);
    }
  }

  lemma MembershipReturnedOnce(fs: seq<Fetch<Membership>>, id: Uuid)
    requires IsFullTraversal(fs, MembershipKey)
    requires forall i :: 0 <= i < |fs| ==> exists m :: m in fs[i].table && m.id == id
    ensures exists i :: 0 <= i < |Returned(fs)| && Returned(fs)[i].id == id
                     && forall j :: 0 <= j < |Returned(fs)| && Returned(fs)[j].id == id ==> j == i
  {
    forall i | 0 <= i < |fs| ensures Carries(fs[i].table, MembershipKey, Rank(id)) {
      var m :| m in fs[i].table && m.id == id;
      assert MembershipKey(m) == Rank(id);
    }
    ReturnedExactlyOnce(fs, MembershipKey, Rank(id));
    forall m: Membership | MembershipKey(m) == Rank(id) ensures m.id == id {
      RankInjective(m.id, id);
    }
  }

  class Store {
    var groups: Groups
    var members: Memberships
    /** What became of every call so far. */
    ghost var calls: seq<Outcome>
    /** What the two unpaged listings returned, whenever they were answered. */
    ghost var groupListings: seq<seq<Group>>
    ghost var memberListings: seq<seq<Membership>>

    ghost predicate Valid()
      reads this`groups, this`members
    {
      ValidTables(groups, members)
    }

    constructor ()
      ensures Valid() && groups == map[] && members == {} && calls == []
      ensures groupListings == [] && memberListings == []
    {
      groups, members, calls, groupListings, memberListings := map[], {}, [], [], [];
    }

    /** Whether a call is carried out, and whether its answer arrives. */
    method Call() returns (o: Outcome)
      modifies this`calls
      ensures calls == old(calls) + [o]
    {
      o := *;
      calls := calls + [o];
    }

    /** Whether a query that changes nothing is answered. */
    method Answered() returns (ok: bool)
      modifies this`calls
      ensures calls == old(calls) + [Answer(ok)]
    {
      ok := *;
      calls := calls + [Answer(ok)];
    }

    method CreateGroup(input: Group) returns (r: Result<Group>, ghost o: Outcome)
      requires Valid()
      modifies this`groups, this`members, this`calls
      ensures Valid() && members == old(members) && calls == old(calls) + [o]
      ensures !o.Refused? && !GroupClash(old(groups), input) ==> groups == old(groups)[input.id := input]
      ensures o.Refused? || GroupClash(old(groups), input) ==> groups == old(groups)
      ensures r == if !o.Done? then Failure(Internal)
                   else if GroupClash(old(groups), input) then Failure(AlreadyExists) else Success(input)
    {
      var outcome := Call();
      o := outcome;
      var clash := GroupClash(groups, input);
      if !outcome.Refused? && !clash {
        EffectsKeepSchema(World(groups, members, {}, []), InsertGroup(input));
        groups := groups[input.id := input];
      }
      if !outcome.Done? {
        return Failure(Internal), o;
      }
      r := if clash then Failure(AlreadyExists) else Success(input);
    }

    method GetGroup(id: Uuid) returns (r: Result<Group>)
      modifies this`calls
      ensures calls == old(calls) + [Answer(r != Failure(Internal))]
      ensures r == Failure(Internal) || r == if id in groups then Success(groups[id]) else Failure(NotFound)
    {
      var ok := Answered();
      if !ok {
        return Failure(Internal);
      }
      r := if id in groups then Success(groups[id]) else Failure(NotFound);
    }

    method ListGroups(filter: ListGroupsFilter, pageSize: Int32, cursor: Option<PageCursor>)
      returns (ok: bool, items: seq<Group>, next: Option<PageCursor>)
      requires Valid()
      modifies this`calls
      ensures calls == old(calls) + [Answer(ok)]
      ensures ok ==> IsPage(GroupsMatching(groups, filter), GroupKey, CursorKey(cursor),
                            NormalizePageSize(pageSize), items, CursorKey(next))
    {
      ok := Answered();
      if !ok {
        return false, [], None;
      }
      var clauses := [Clause(Plain(OrganizationId), Equals, 1)];
      var args := [UuidValue(filter.organizationId)];
      if filter.source.Some? {
        clauses, args := AppendClause(clauses, args, Plain(Source), Equals, SourceValue(filter.source.value));
      }
      ghost var selected := Selected(GroupRows(groups), GroupView, clauses, args);
      GroupClausesExact(groups, filter, clauses, args);
      GroupsKeyed(groups, selected);
      items, next := ListEntities(GroupRows(groups), GroupView, GroupKey, clauses, args, cursor, pageSize,
                                  Qualified(GroupsTable, Id));
    }

    method ListMembers(filter: ListMembersFilter, pageSize: Int32, cursor: Option<PageCursor>)
      returns (ok: bool, items: seq<Membership>, next: Option<PageCursor>)
      requires Valid()
      modifies this`calls
      ensures calls == old(calls) + [Answer(ok)]
      ensures ok ==> IsPage(MembersMatching(members, filter), MembershipKey, CursorKey(cursor),
                            NormalizePageSize(pageSize), items, CursorKey(next))
    {
      ok := Answered();
      if !ok {
        return false, [], None;
      }
      var clauses := [Clause(Plain(GroupId), Equals, 1)];
      var args := [UuidValue(filter.groupId)];
      if filter.memberType.Some? {
        clauses, args := AppendClause(clauses, args, Plain(MemberTypeField), Equals,
                                      MemberTypeValue(filter.memberType.value));
      }
      ghost var selected := Selected(members, MembershipView, clauses, args);
      MemberClausesExact(members, filter, clauses, args);
      MembershipsKeyed(groups, members, selected);
      items, next := ListEntities(members, MembershipView, MembershipKey, clauses, args, cursor, pageSize,
                                  Qualified(MembershipsTable, Id));
    }

    method ListMemberGroups(filter: ListMemberGroupsFilter, pageSize: Int32, cursor: Option<PageCursor>)
      returns (ok: bool, items: seq<Group>, next: Option<PageCursor>)
      requires Valid()
      modifies this`calls
      ensures calls == old(calls) + [Answer(ok)]
      ensures ok ==> IsPage(GroupsOfMember(groups, members, filter), GroupKey, CursorKey(cursor),
                            NormalizePageSize(pageSize), items, CursorKey(next))
    {
      ok := Answered();
      if !ok {
        return false, [], None;
      }
      var clauses, args := JoinClauses(), JoinArgs(filter);
      JoinSelection(groups, members, filter);
      JoinOrdered(groups, members);
      hide Resolve, Matches, Rank, ValidTables, JoinRows, GroupsOfMember;
      var rows: seq<(Group, Membership)>;
      rows, next := ListEntities(JoinRows(groups, members), JoinView, JoinKey, clauses, args, cursor, pageSize,
                                 Qualified(GroupsTable, Id));
      items := seq(|rows|, i requires 0 <= i < |rows| => rows[i].0);
      JoinPage(groups, members, filter, CursorKey(cursor), NormalizePageSize(pageSize), rows, items, CursorKey(next));
    }

    method ListAllGroups() returns (ok: bool, rows: seq<Group>)
      requires Valid()
      modifies this`calls, this`groupListings
      ensures calls == old(calls) + [Answer(ok)]
      ensures groupListings == old(groupListings) + if ok then [rows] else []
      ensures ok ==> Lists(rows, GroupRows(groups))
    {
      ok := Answered();
      rows := Rows(GroupRows(groups));
      if ok {
        groupListings := groupListings + [rows];
      }
    }

    method ListAllMemberships() returns (ok: bool, rows: seq<Membership>)
      modifies this`calls, this`memberListings
      ensures calls == old(calls) + [Answer(ok)]
      ensures memberListings == old(memberListings) + if ok then [rows] else []
      ensures ok ==> Lists(rows, members)
    {
      ok := Answered();
      rows := Rows(members);
      if ok {
        memberListings := memberListings + [rows];
      }
    }

    method UpdateGroup(input: UpdateGroupInput) returns (r: Result<Group>, ghost o: Outcome)
      requires Valid()
      modifies this`groups, this`members, this`calls
      ensures Valid() && members == old(members) && calls == old(calls) + [o]
      ensures input.id !in old(groups) ==>
                groups == old(groups) && r == Failure(if o.Done? then NotFound else Internal)
      ensures input.id in old(groups) ==>
                var row := Updated(old(groups)[input.id], input);
                if UpdateClash(old(groups), row) then
                  groups == old(groups) && r == Failure(if o.Done? then AlreadyExists else Internal)
                else
                  && groups == (if o.Refused? then old(groups) else old(groups)[input.id := row])
                  && r == (if o.Done? then Success(row) else Failure(Internal))
      ensures r.Success? ==> && input.id in old(groups) && SetsExactly(old(groups)[input.id], input, r.value)
                             && groups == old(groups)[input.id := r.value]
      ensures r == Failure(AlreadyExists) <==> o.Done? && input.id in old(groups) && NameTaken(old(groups), input)
    {
      hide NameTaken;
      if input.id in groups {
        OnlyNamesClash(groups, input);
      }
      var builder := new UpdateBuilder();
      if input.name.Some? {
        builder.Add(Name, TextValue(input.name.value));
      }
      if input.description.Some? {
        builder.Add(Description, TextValue(input.description.value));
      }
      assert forall g :: builder.Effect(g) == Updated(g, input);
      var empty := builder.Empty();
      if empty {
        r := GetGroup(input.id);
        o := if r == Failure(Internal) then Refused else Done;
        if input.id in groups {
          NoClashAsIs(groups, input.id);
          assert builder.Effect(groups[input.id]) == groups[input.id];
          assert groups[input.id := groups[input.id]] == groups;
        }
        return;
      }
      var update, args := builder.Build(input.id);
      r, o := ExecuteUpdate(update, args);
      assert forall g :: SetFields(g, update.sets, args) == Updated(g, input);
      if input.id in old(groups) {
        SetFieldsKeepsId(old(groups)[input.id], update.sets, args);
      }
    }

    /** The database running an UPDATE ... WHERE id = $n RETURNING. */
    method ExecuteUpdate(u: Update, args: seq<Value>) returns (r: Result<Group>, ghost o: Outcome)
      requires Valid() && WellFormedUpdate(u, args)
      modifies this`groups, this`members, this`calls
      ensures Valid() && members == old(members) && calls == old(calls) + [o]
      ensures var id := args[u.idPlaceholder - 1].id;
              if id !in old(groups) then
                groups == old(groups) && r == Failure(if o.Done? then NotFound else Internal)
              else
                var row := SetFields(old(groups)[id], u.sets, args);
                && row.id == id
                && if UpdateClash(old(groups), row) then
                     groups == old(groups) && r == Failure(if o.Done? then AlreadyExists else Internal)
                   else
                     && groups == (if o.Refused? then old(groups) else old(groups)[id := row])
                     && r == (if o.Done? then Success(row) else Failure(Internal))
    {
      var outcome := Call();
      o := outcome;
      var id := args[u.idPlaceholder - 1].id;
      if id !in groups {
        r := Failure(if outcome.Done? then NotFound else Internal);
        return;
      }
      var row := SetFields(groups[id], u.sets, args);
      SetFieldsKeepsId(groups[id], u.sets, args);
      if UpdateClash(groups, row) {
        r := Failure(if outcome.Done? then AlreadyExists else Internal);
        return;
      }
      if !outcome.Refused? {
        EffectsKeepSchema(World(groups, members, {}, []), ReplaceGroup(row));
        groups := groups[id := row];
      }
      r := if outcome.Done? then Success(row) else Failure(Internal);
    }

    method DeleteGroup(id: Uuid) returns (r: Result<DeletedGroup>, ghost o: Outcome)
      requires Valid()
      modifies this`groups, this`members, this`calls
      ensures Valid() && calls == old(calls) + [o]
      ensures o.Refused? ==> groups == old(groups) && members == old(members) && r == Failure(Internal)
      ensures !o.Refused? ==> groups == old(groups) - {id} && members == WithoutGroup(old(members), id)
      ensures o.Done? && id !in old(groups) ==> r == Failure(NotFound)
      ensures o.Done? && id in old(groups) ==>
                r.Success? && r.value.group == old(groups)[id] && r.value.admins == []
                && Lists(r.value.memberships, MembersOf(old(members), id))
      ensures o.ReplyLost? ==> r == Failure(Internal)
    {
      var outcome := Call();
      o := outcome;
      if outcome.Refused? {
        return Failure(Internal), o;
      }
      if id !in groups {
        assert forall m :: m in members ==> m.groupId in groups;
        assert members == WithoutGroup(members, id) && groups == groups - {id};
        r := if outcome.Done? then Failure(NotFound) else Failure(Internal);
        return;
      }
      var rows := Rows(MembersOf(members, id));
      var deleted := DeletedGroup(groups[id], rows, []);
      EffectsKeepSchema(World(groups, members, {}, []), DeleteGroupRow(id));
      groups, members := groups - {id}, WithoutGroup(members, id);
      r := if outcome.Done? then Success(deleted) else Failure(Internal);
    }

    /** The row and whether this call made it; a repeated pair gives the row there is. */
    method AddMember(input: Membership) returns (r: Result<(Membership, bool)>, ghost o: Outcome, ghost reread: bool)
      requires Valid()
      modifies this`groups, this`members, this`calls
      ensures Valid() && groups == old(groups)
      ensures calls == old(calls) + [o] + if o.Done? && HasPair(old(members), input.groupId, input.memberId)
                                          then [Answer(reread)] else []
      ensures var w := World(old(groups), old(members), {}, []);
              && members == (if !o.Refused? && FreshMember(w, input) then old(members) + {input} else old(members))
              && r == (if !o.Done? then Failure(Internal)
                       else if HasPair(old(members), input.groupId, input.memberId) then
                         if reread then Success((FindMember(old(members), input.groupId, input.memberId).value, false))
                         else Failure(Internal)
                       else if FreshMember(w, input) then Success((input, true))
                       else Failure(Internal))
    {
      var outcome := Call();
      o := outcome;
      reread := true;
      if outcome.Refused? {
        return Failure(Internal), o, reread;
      }
      if exists m :: m in members && m.groupId == input.groupId && m.memberId == input.memberId {
        if !outcome.Done? {
          return Failure(Internal), o, reread;
        }
        var existing := GetMembershipByGroupMember(input.groupId, input.memberId);
        reread := existing.Success?;
        r := if existing.Success? then Success((existing.value, false)) else Failure(Internal);
        return;
      }
      if input.groupId !in groups || exists m :: m in members && m.id == input.id {
        return Failure(Internal), o, reread;
      }
      EffectsKeepSchema(World(groups, members, {}, []), InsertMember(input));
      members := members + {input};
      r := if outcome.Done? then Success((input, true)) else Failure(Internal);
    }

    method GetMembershipByGroupMember(groupId: Uuid, memberId: Uuid) returns (r: Result<Membership>)
      requires Valid()
      modifies this`calls
      ensures calls == old(calls) + [Answer(r != Failure(Internal))]
      ensures r == Failure(Internal) || r == match FindMember(members, groupId, memberId)
                                             case Some(m) => Success(m)
                                             case None => Failure(NotFound)
    {
      var ok := Answered();
      if !ok {
        return Failure(Internal);
      }
      if exists m :: m in members && m.groupId == groupId && m.memberId == memberId {
        var m :| m in members && m.groupId == groupId && m.memberId == memberId;
        return Success(m);
      }
      r := Failure(NotFound);
    }

    method RemoveMember(groupId: Uuid, memberId: Uuid)
      returns (r: Result<Option<RemovedMembership>>, ghost o: Outcome)
      requires Valid()
      modifies this`groups, this`members, this`calls
      ensures Valid() && groups == old(groups) && calls == old(calls) + [o]
      ensures members == if o.Refused? then old(members) else WithoutMember(old(members), groupId, memberId)
      ensures r == if !o.Done? then Failure(Internal)
                   else match FindMember(old(members), groupId, memberId)
                        case Some(m) => Success(Some(RemovedMembership(m, groups[groupId].organizationId)))
                        case None => Success(None)
    {
      var outcome := Call();
      o := outcome;
      if outcome.Refused? {
        return Failure(Internal), o;
      }
      if exists m :: m in members && m.groupId == groupId && m.memberId == memberId {
        var m :| m in members && m.groupId == groupId && m.memberId == memberId;
        EffectsKeepSchema(World(groups, members, {}, []), DeleteMember(groupId, memberId));
        members := WithoutMember(members, groupId, memberId);
        r := if outcome.Done? then Success(Some(RemovedMembership(m, groups[groupId].organizationId)))
             else Failure(Internal);
        return;
      }
      assert members == WithoutMember(members, groupId, memberId);
      r := if outcome.Done? then Success(None) else Failure(Internal);
    }
  }

  lemma {:induction false} SetFieldsKeepsId(g: Group, sets: seq<SetClause>, args: seq<Value>)
    requires forall i :: 0 <= i < |sets| ==> 1 <= sets[i].placeholder <= |args|
    ensures SetFields(g, sets, args).id == g.id
  {
    if sets != [] {
      SetFieldsKeepsId(g, sets[..|sets| - 1], args);
    }
  }

  /** Reading all rows of a result, in whatever order they come. */
  method Rows<T(==,!new)>(table: set<T>) returns (rows: seq<T>)
    ensures Lists(rows, table)
  {
    rows := [];
    var rest := table;
    while rest != {}
      invariant rest <= table
      invariant forall r :: r in table <==> r in rows || r in rest
      invariant forall r :: r in rows ==> r !in rest
      invariant forall i, j :: 0 <= i < j < |rows| ==> rows[i] != rows[j]
      decreases rest
    {
      var r :| r in rest;
      rows := rows + [r];
      rest := rest - {r};
    }
  }
}
