/** What reconciliation is for: the tuples and memberships that the tables and
    the identity directory call for, and how far a run has moved towards them. */
module Goal {
  import opened Uuids
  import opened Schema
  import opened Tuples
  import opened Worlds

  /** Memberships whose identity still exists. */
  function Live(ids: set<Uuid>, members: Memberships): Memberships {
    set m | m in members && m.memberId in ids
  }

  predicate ValidAdminUser(ids: set<Uuid>, user: string) {
    match ParseIdentityObject(user)
    case Some(a) => a in ids
    case None => false
  }

  /** An `org` tuple is backed when its object parses to a group of that organization. */
  predicate OrgBacked(groups: Groups, t: TupleKey) {
    match ParseGroupObject(t.obj)
    case Some(g) => g in groups && t.user == OrganizationObject(groups[g].organizationId)
    case None => false
  }

  /** An `admin` tuple is backed when it stands on the canonical object of a
      group and its user parses to an identity that exists. */
  predicate AdminBacked(ids: set<Uuid>, groups: Groups, t: TupleKey) {
    match ParseGroupObject(t.obj)
    case Some(g) => g in groups && t.obj == GroupObject(g) && ValidAdminUser(ids, t.user)
    case None => false
  }

  ghost predicate MemberBacked(members: Memberships, t: TupleKey) {
    exists m :: m in members && t == MembershipTuple(m)
  }

  /** Canonical: the object is the text this service prints for the group it parses to. */
  predicate CanonicalObject(t: TupleKey) {
    match ParseGroupObject(t.obj)
    case Some(g) => t.obj == GroupObject(g)
    case None => false
  }

  /** Unmanaged tuples stay as they are; `org` tuples of live groups are
      required and other backed ones tolerated; member tuples are exactly those
      of live memberships; admin tuples are kept when backed, never made. */
  ghost predicate InGoal(ids: set<Uuid>, w: World, t: TupleKey) {
    if !IsManagedGroupTuple(t) then t in w.tuples
    else if t.relation == ORG_RELATION then OrgBacked(w.groups, t) && (t in w.tuples || CanonicalObject(t))
    else if t.relation == MEMBER_RELATION then MemberBacked(Live(ids, w.members), t)
    else t in w.tuples && AdminBacked(ids, w.groups, t)
  }

  function OrgTuples(groups: Groups): TupleSet {
    set g | g in groups :: GroupOrgTuple(g, groups[g].organizationId)
  }

  function MemberTuples(members: Memberships): TupleSet {
    set m | m in members :: MembershipTuple(m)
  }

  ghost function GoalTuples(ids: set<Uuid>, w: World): TupleSet {
    set t | t in w.tuples + OrgTuples(w.groups) + MemberTuples(w.members) && InGoal(ids, w, t)
  }

  lemma CanonicalOrgTuple(groups: Groups, t: TupleKey)
    requires t.relation == ORG_RELATION && OrgBacked(groups, t) && CanonicalObject(t)
    ensures t in OrgTuples(groups)
  {
  }

  /** The goal is a finite set of tuples although it is stated tuple by tuple. */
  lemma GoalMembership(ids: set<Uuid>, w: World, t: TupleKey)
    ensures t in GoalTuples(ids, w) <==> InGoal(ids, w, t)
  {
    if InGoal(ids, w, t) && t !in w.tuples {
      if t.relation == ORG_RELATION {
        CanonicalOrgTuple(w.groups, t);
      } else {
        var m :| m in Live(ids, w.members) && t == MembershipTuple(m);
        assert m in w.members;
      }
    }
  }
}
