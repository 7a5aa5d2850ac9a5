/** What the code does not do: for each, a world that shows it and the exact
    condition under which it is otherwise. */
module Limits {
  import opened Wrappers
  import opened Uuids
  import opened Schema
  import opened Tuples
  import opened Worlds
  import opened Goal
  import opened Progress
  import opened Sweeps
  import opened Sagas
  import opened Agreement
  import opened Ordering

  /** The write took effect, its reply was lost, and the row was taken back: two
      tuples remain of a group that never was. */
  lemma LostReplyOutlivesGroup(g: Group, admin: Uuid)
    ensures var w := CreateGroupSaga(EMPTY_WORLD, g, admin, CreateOutcome(Done, ReplyLost, Done)).0;
            && ValidWorld(EMPTY_WORLD) && Safe(EMPTY_WORLD)
            && g.id !in w.groups && w.tuples == CreateTuples(g, admin) && !Safe(w)
  {
    var w := CreateGroupSaga(EMPTY_WORLD, g, admin, CreateOutcome(Done, ReplyLost, Done)).0;
    CreateSafe(EMPTY_WORLD, g, admin, CreateOutcome(Done, ReplyLost, Done));
    CreateEnds(EMPTY_WORLD, g, admin, CreateOutcome(Done, ReplyLost, Done));
    hide CreateGroupSaga, Safe;
    assert w.tuples == CreateTuples(g, admin);
  }

  // ----- what a completed reconciliation leaves ---------------------------------------------

  function UrnOrgTuple(g: Uuid, organizationId: Uuid): TupleKey {
    TupleKey(OrganizationObject(organizationId), ORG_RELATION, GROUP_PREFIX + "urn:uuid:" + ToText(g))
  }

  lemma UrnTextParses(g: Uuid)
    ensures ParseGroupObject(GROUP_PREFIX + "urn:uuid:" + ToText(g)) == Some(g)
    ensures GROUP_PREFIX + "urn:uuid:" + ToText(g) != GroupObject(g)
  {
    var text := "urn:uuid:" + ToText(g);
    assert (GROUP_PREFIX + "urn:uuid:" + ToText(g))[|GROUP_PREFIX|..] == text;
    OtherFormsParse(g, '{', '}');
  }

  /** A second org tuple of a live group, in another text form, is never swept. */
  lemma NonCanonicalOrgStays(ids: set<Uuid>, w: World, w': World, g: Uuid)
    requires Converged(ALONE, ids, w, w') && g in w.groups
    requires UrnOrgTuple(g, w.groups[g].organizationId) in w.tuples
    ensures var t := UrnOrgTuple(g, w.groups[g].organizationId);
            t in w'.tuples && t != GroupOrgTuple(g, w.groups[g].organizationId)
  {
    UrnTextParses(g);
    var t := UrnOrgTuple(g, w.groups[g].organizationId);
    EverythingQuiet(t);
    assert t.obj[6..] == "urn:uuid:" + ToText(g);
    OrgTuplesAfterRun(ALONE, ids, w, w', t);
  }

  /** A lost admin tuple stays lost although its group and its identity are there. */
  lemma LostAdminStaysLost(ids: set<Uuid>, w: World, w': World, g: Uuid, admin: Uuid)
    requires Converged(ALONE, ids, w, w') && g in w.groups && admin in ids
    requires GroupAdminTuple(g, admin) !in w.tuples
    ensures AdminBacked(ids, w.groups, GroupAdminTuple(g, admin)) && GroupAdminTuple(g, admin) !in w'.tuples
  {
    GroupObjectReadBack(g);
    IdentityObjectReadBack(admin);
    EverythingQuiet(GroupAdminTuple(g, admin));
    AdminTuplesAfterRun(ALONE, ids, w, w', GroupAdminTuple(g, admin));
  }

  // ----- deletion and admin tuples that do not parse ------------------------------------------

  /** With every call answered, a deletion of a group succeeds exactly when all
      users of its admin tuples parse; otherwise it changes nothing. */
  lemma DeletionNeedsReadableAdmins(w: World, g: Uuid, o: DeleteOutcome)
    requires g in w.groups && CanDelete(w, g, o)
    requires o.groupRead && AllDone(o.adminReads) && AllDone(o.memberReads) && o.tuples.Done? && o.row.Done?
    ensures DeleteGroupSaga(w, g, o).1.Success? <==>
            forall t :: t in w.tuples && t.relation == ADMIN_RELATION && t.obj == GroupObject(g) ==>
              ParseIdentityObject(t.user).Some?
    ensures DeleteGroupSaga(w, g, o).1.Failure? ==> DeleteGroupSaga(w, g, o) == (w, Failure(Internal))
  {
    hide GroupObject, ParseIdentityObject, TuplesOfGroup, Announcements, Lists;
    if None in AdminUsers(w.tuples, g) {
      var t :| t in w.tuples && t.relation == ADMIN_RELATION && t.obj == GroupObject(g)
               && ParseIdentityObject(t.user) == None;
    }
  }

  /** Whatever becomes of the calls, one such tuple stops the deletion before its first change. */
  lemma UnreadableAdminStopsDeletion(w: World, g: Uuid, o: DeleteOutcome, t: TupleKey)
    requires CanDelete(w, g, o) && t in w.tuples && t.relation == ADMIN_RELATION && t.obj == GroupObject(g)
    requires ParseIdentityObject(t.user).None?
    ensures DeleteGroupSaga(w, g, o).0 == w && DeleteGroupSaga(w, g, o).1.Failure?
  {
    hide GroupObject, ParseIdentityObject, TuplesOfGroup, Announcements, Lists;
    assert None in AdminUsers(w.tuples, g);
  }

  /** Such a tuple: an admin whose identifier is not one. */
  lemma UnreadableAdmin(g: Uuid)
    ensures var t := TupleKey(IDENTITY_PREFIX + "admin", ADMIN_RELATION, GroupObject(g));
            IsManagedGroupTuple(t) && ParseIdentityObject(t.user).None?
  {
    assert (IDENTITY_PREFIX + "admin")[|IDENTITY_PREFIX|..] == "admin";
  }
}
