/** Ordering safety: creation inserts the row before the tuples, deletion clears
    the tuples before the row. */
module Ordering {
  import opened Wrappers
  import opened Uuids
  import opened Schema
  import opened Tuples
  import opened Worlds
  import opened Progress
  import opened Reconciling
  import opened Store
  import opened Sagas
  import opened Histories
  import opened Agreement

  /** The tuple is no org or admin tuple of a group, or the group has its row and
      the tuple is one this service would have written for it. */
  ghost predicate Anchored(groups: Groups, t: TupleKey) {
    match ParseGroupObject(t.obj)
    case None => true
    case Some(g) =>
      && (t.relation == ORG_RELATION ==> g in groups && t == GroupOrgTuple(g, groups[g].organizationId))
      && (t.relation == ADMIN_RELATION ==> g in groups && exists a :: t == GroupAdminTuple(g, a))
  }

  ghost predicate Safe(w: World) {
    forall t :: t in w.tuples ==> Anchored(w.groups, t)
  }

  /** The one way a tuple outlives its group: the write of a creation took effect,
      its reply was lost, and the row was taken back. */
  predicate Outlives(w: World, s: Step) {
    && s.Creating? && !GroupClash(w.groups, s.group)
    && !CreateLeavesRow(s.create) && CreateLeavesTuples(s.create)
  }

  lemma ConstructedTuplesAnchored(groups: Groups, g: Uuid, x: Uuid)
    ensures Anchored(groups, GroupOrgTuple(g, x)) <==>
            g in groups && GroupOrgTuple(g, x) == GroupOrgTuple(g, groups[g].organizationId)
    ensures Anchored(groups, GroupAdminTuple(g, x)) <==> g in groups
    ensures Anchored(groups, MemberTuple(g, x))
  {
    GroupObjectReadBack(g);
  }

  lemma CreateSafe(w: World, g: Group, admin: Uuid, o: CreateOutcome)
    requires ValidWorld(w) && Safe(w)
    ensures Safe(CreateGroupSaga(w, g, admin, o).0) <==> !Outlives(w, Creating(g, admin, o))
  {
    if !GroupClash(w.groups, g) {
      var w' := CreateGroupSaga(w, g, admin, o).0;
      CreateEnds(w, g, admin, o);
      ConstructedTuplesAnchored(w'.groups, g.id, g.organizationId);
      ConstructedTuplesAnchored(w'.groups, g.id, admin);
      hide CreateGroupSaga, GroupOrgTuple, GroupAdminTuple, GroupClash;
      forall t | t in w.tuples ensures Anchored(w'.groups, t) {
        assert Anchored(w.groups, t);
      }
      assert GroupOrgTuple(g.id, g.organizationId) in CreateTuples(g, admin);
    }
  }

  lemma UpdateSafe(w: World, input: UpdateGroupInput, o: UpdateOutcome)
    requires ValidWorld(w) && Safe(w)
    ensures Safe(UpdateGroupSaga(w, input, o).0)
  {
    var w' := UpdateGroupSaga(w, input, o).0;
    hide GroupOrgTuple, GroupAdminTuple, UpdateClash;
    forall t | t in w'.tuples ensures Anchored(w'.groups, t) {
      assert Anchored(w.groups, t);
    }
  }

  lemma AddSafe(types: IdentityTypes, w: World, m: Membership, o: AddOutcome)
    requires ValidWorld(w) && Safe(w)
    ensures Safe(AddMemberSaga(types, w, m, o).0)
  {
    AddEnds(types, w, m, o);
    ConstructedTuplesAnchored(w.groups, m.groupId, m.memberId);
    hide AddMemberSaga, Anchored, MemberTuple, Inserts;
  }

  lemma RemoveSafe(w: World, g: Uuid, u: Uuid, o: RemoveOutcome)
    requires ValidWorld(w) && Safe(w)
    ensures Safe(RemoveMemberSaga(w, g, u, o).0)
  {
    RemoveEnds(w, g, u, o);
    hide RemoveMemberSaga, Anchored, MemberTuple, Removes;
  }

  /** Every anchored org or admin tuple of the group is in the batch. */
  lemma BatchHoldsAnchoredTuples(w: World, g: Uuid, t: TupleKey)
    requires ValidWorld(w) && g in w.groups && t in w.tuples && Anchored(w.groups, t)
    requires ParseGroupObject(t.obj) == Some(g) && (t.relation == ORG_RELATION || t.relation == ADMIN_RELATION)
    ensures t in TuplesOfGroup(w, w.groups[g])
  {
    hide ToText, Parse;
    TuplesOfGroupExact(w, w.groups[g]);
    if t.relation == ADMIN_RELATION {
      var a :| t == GroupAdminTuple(g, a);
      IdentityObjectReadBack(a);
      assert ParseIdentityObject(t.user) in AdminUsers(w.tuples, g);
    }
    hide TuplesOfGroup;
  }

  lemma DeleteSafe(w: World, g: Uuid, o: DeleteOutcome)
    requires ValidWorld(w) && CanDelete(w, g, o) && Safe(w)
    ensures Safe(DeleteGroupSaga(w, g, o).0)
  {
    DeleteEnds(w, g, o);
    var w' := DeleteGroupSaga(w, g, o).0;
    if Deletes(w, g, o) {
      hide DeleteGroupSaga, TuplesOfGroup, ToText, Parse, GroupOrgTuple, GroupAdminTuple, ParseGroupObject, CanDelete;
      forall t | t in w'.tuples ensures Anchored(w'.groups, t) {
        assert Anchored(w.groups, t);
        if ParseGroupObject(t.obj) == Some(g) && (t.relation == ORG_RELATION || t.relation == ADMIN_RELATION) {
          BatchHoldsAnchoredTuples(w, g, t);
        }
      }
    }
  }

  lemma ReconcileSafe(ids: set<Uuid>, w: World, completed: bool, w': World)
    requires Reconciled(ids, w, completed, w') && Safe(w)
    ensures Safe(w')
  {
    hide ToText, Parse, PublishedExactly, CutOff, Converged;
    AloneGroups(ids, w, w');
    forall t | t in w'.tuples ensures Anchored(w'.groups, t) {
      EverythingQuiet(t);
      if t in w.tuples {
        assert Anchored(w.groups, t);
      }
    }
  }

  /** Every step keeps org and admin tuples anchored, save exactly the one above. */
  lemma StepSafe(types: IdentityTypes, w: World, s: Step, w': World)
    requires ValidWorld(w) && Safe(w) && Takes(types, w, s, w')
    ensures Safe(w') <==> !Outlives(w, s)
  {
    hide CreateGroupSaga, UpdateGroupSaga, AddMemberSaga, RemoveMemberSaga, DeleteGroupSaga, Safe, ValidWorld,
         Reconciled;
    match s
    case Creating(g, admin, o) => CreateSafe(w, g, admin, o);
    case Updating(input, o) => UpdateSafe(w, input, o);
    case Adding(m, o) => AddSafe(types, w, m, o);
    case Removing(g, u, o) => RemoveSafe(w, g, u, o);
    case Deleting(g, o) => DeleteSafe(w, g, o);
    case Repairing(completed) => ReconcileSafe(types.Keys, w, completed, w');
  }

  /** The writes of group creations either take effect or leave no trace. */
  ghost predicate CreationWritesAnswered(h: History) {
    forall i :: 0 <= i < |h.steps| && h.steps[i].Creating? ==> !h.steps[i].create.write.ReplyLost?
  }

  /** Ordering safety: in no state of any run does an org or admin tuple refer to
      a group without a row, wherever requests and reconciliations fail. */
  lemma {:induction false} OrderingSafety(types: IdentityTypes, h: History, n: nat)
    requires IsRun(types, h) && Safe(h.worlds[0]) && CreationWritesAnswered(h) && n < |h.worlds|
    ensures Safe(h.worlds[n])
  {
    hide Takes, Safe;
    if n > 0 {
      OrderingSafety(types, h, n - 1);
      RunKeepsSchema(types, h, n - 1);
      assert Takes(types, h.worlds[n - 1], h.steps[n - 1], h.worlds[n - 1 + 1]);
      StepSafe(types, h.worlds[n - 1], h.steps[n - 1], h.worlds[n]);
    }
  }

  // ----- what a strict tuple store would say ---------------------------------------------------------

  /** Nothing is written that is there, and nothing deleted that is not. */
  ghost predicate Strict(w: World, writes: TupleSet, deletes: TupleSet) {
    writes !! w.tuples && deletes <= w.tuples
  }

  lemma BatchIsThere(w: World, g: Uuid)
    requires ValidWorld(w) && Agree(w) && Safe(w) && g in w.groups
    ensures TuplesOfGroup(w, w.groups[g]) <= w.tuples
  {
    hide ToText, Parse, MembershipTuple;
    assert AgreeAt(w, g, g);
    forall a | Some(a) in AdminUsers(w.tuples, g) ensures GroupAdminTuple(g, a) in w.tuples {
      var t :| t in w.tuples && t.relation == ADMIN_RELATION && t.obj == GroupObject(g)
                  && ParseIdentityObject(t.user) == Some(a);
      GroupObjectReadBack(g);
      assert Anchored(w.groups, t);
      var b :| t == GroupAdminTuple(g, b);
      IdentityObjectReadBack(b);
    }
    forall m | m in MembersOf(w.members, g) ensures MembershipTuple(m) in w.tuples {
      assert AgreeAt(w, g, m.memberId) && HasPair(w.members, g, m.memberId);
      MembershipTupleOf(m);
    }
    hide GroupAdminTuple, GroupOrgTuple, AdminUsers;
  }

  lemma MembershipTupleOf(m: Membership)
    ensures MembershipTuple(m) == MemberTuple(m.groupId, m.memberId)
  {
  }

  /** In a world that agrees, every write a request makes is one that even a
      strict tuple store accepts. */
  lemma RequestWritesAreStrict(types: IdentityTypes, w: World, s: Step)
    requires ValidWorld(w) && Agree(w) && Safe(w)
    ensures match s
      case Creating(g, admin, _) => !GroupClash(w.groups, g) ==> Strict(w, CreateTuples(g, admin), {})
      case Adding(m, o) => Inserts(types, w, m, o) ==> Strict(w, {MembershipTuple(m)}, {})
      case Removing(g, u, o) => Removes(w, g, u, o) ==> Strict(w, {}, {MemberTuple(g, u)})
      case Deleting(g, o) => Deletes(w, g, o) ==> Strict(w, {}, TuplesOfGroup(w, w.groups[g]))
      case _ => true
  {
    hide TuplesOfGroup, GroupClash;
    match s
    case Creating(g, admin, _) =>
      ConstructedTuplesAnchored(w.groups, g.id, g.organizationId);
      ConstructedTuplesAnchored(w.groups, g.id, admin);
      assert GroupClash(w.groups, g) <== g.id in w.groups by { KnownIdClashes(w.groups, g); }
    case Adding(m, o) => assert AgreeAt(w, m.groupId, m.memberId);
    case Removing(g, u, o) => assert AgreeAt(w, g, u);
    case Deleting(g, o) =>
      if g in w.groups {
        BatchIsThere(w, g);
      }
    case _ =>
  }

  lemma KnownIdClashes(groups: Groups, g: Group)
    ensures g.id in groups ==> GroupClash(groups, g)
  {
  }
}
