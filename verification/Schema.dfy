/** Rows of the two tables (internal/store/types.go) and the constraints the
    migration declares on them (migrations/0001_init.sql). */
module Schema {
  import opened Wrappers
  import opened Uuids

  datatype GroupSource = Platform | Scim
  datatype MemberType = User | Agent | App
  datatype IdentityType = UserIdentity | AgentIdentity | AppIdentity | RunnerIdentity | OtherIdentity

  datatype Group = Group(
    id: Uuid, organizationId: Uuid, name: string, description: string,
    source: GroupSource, externalId: Option<string>)

  datatype Membership = Membership(
    id: Uuid, groupId: Uuid, memberType: MemberType, memberId: Uuid, source: GroupSource)

  datatype RemovedMembership = RemovedMembership(membership: Membership, organizationId: Uuid)

  datatype DeletedGroup = DeletedGroup(group: Group, memberships: seq<Membership>, admins: seq<Uuid>)

  type Groups = map<Uuid, Group>
  type Memberships = set<Membership>

  /** The two UNIQUE constraints of `groups`; a NULL external id clashes with nothing. */
  predicate Clash(a: Group, b: Group) {
    && a.organizationId == b.organizationId && a.source == b.source
    && (a.name == b.name || (a.externalId.Some? && a.externalId == b.externalId))
  }

  ghost predicate ValidGroups(groups: Groups) {
    && (forall id :: id in groups ==> groups[id].id == id)
    && (forall a, b :: a in groups && b in groups && a != b ==> !Clash(groups[a], groups[b]))
  }

  /** Primary key, UNIQUE (group_id, member_id) and the foreign key. */
  ghost predicate ValidMemberships(groups: Groups, members: Memberships) {
    && (forall m :: m in members ==> m.groupId in groups)
    && (forall a, b :: a in members && b in members && a.id == b.id ==> a == b)
    && (forall a, b :: a in members && b in members && a.groupId == b.groupId && a.memberId == b.memberId
          ==> a == b)
  }

  ghost predicate ValidTables(groups: Groups, members: Memberships) {
    ValidGroups(groups) && ValidMemberships(groups, members)
  }

  ghost predicate HasPair(members: Memberships, groupId: Uuid, memberId: Uuid) {
    exists m :: m in members && m.groupId == groupId && m.memberId == memberId
  }

  /** A listing holds every row of a finite table once, in an order of the database's choosing. */
  ghost predicate Lists<T(!new)>(rows: seq<T>, table: set<T>) {
    && (forall r :: r in rows <==> r in table)
    && (forall i, j :: 0 <= i < j < |rows| ==> rows[i] != rows[j])
  }
}
