/** Rows against tuples: what keeps them in agreement, which failures make them
    drift, and which tuples never outlive their group. */
module Agreement {
  import opened Wrappers
  import opened Uuids
  import opened Schema
  import opened Tuples
  import opened Worlds
  import opened Goal
  import opened Progress
  import opened Reconciling
  import opened Store
  import opened Sagas
  import opened Histories

  // ----- the four ways to disagree --------------------------------------------------------

  /** A group without its org tuple. */
  ghost predicate GroupBare(w: World, g: Uuid) {
    g in w.groups && GroupOrgTuple(g, w.groups[g].organizationId) !in w.tuples
  }

  /** A membership without its member tuple. */
  ghost predicate PairBare(w: World, g: Uuid, u: Uuid) {
    HasPair(w.members, g, u) && MemberTuple(g, u) !in w.tuples
  }

  /** An org tuple without its group. */
  ghost predicate OrgStale(w: World, g: Uuid, x: Uuid) {
    GroupOrgTuple(g, x) in w.tuples && !(g in w.groups && w.groups[g].organizationId == x)
  }

  /** A member tuple without its membership. */
  ghost predicate PairStale(w: World, g: Uuid, u: Uuid) {
    MemberTuple(g, u) in w.tuples && !HasPair(w.members, g, u)
  }

  /** No disagreement about group g, or about g and organization or member x. */
  ghost predicate AgreeAt(w: World, g: Uuid, x: Uuid) {
    !GroupBare(w, g) && !PairBare(w, g, x) && !OrgStale(w, g, x) && !PairStale(w, g, x)
  }

  /** Org and member tuples correspond exactly to groups and memberships. */
  ghost predicate Agree(w: World) {
    forall g, x :: AgreeAt(w, g, x)
  }

  lemma LogIsNoMatter(w: World, log: seq<Attempt>)
    ensures Agree(w.(log := log)) <==> Agree(w)
  {
    forall g, x ensures AgreeAt(w.(log := log), g, x) <==> AgreeAt(w, g, x) {
      hide GroupOrgTuple, MemberTuple;
    }
  }

  // ----- where a request ends, whatever became of its calls -----------------------------------

  predicate CreateLeavesRow(o: CreateOutcome) {
    o.insert.ReplyLost? || (o.insert.Done? && (o.write.Done? || o.undo.Refused?))
  }

  predicate CreateLeavesTuples(o: CreateOutcome) {
    o.insert.Done? && !o.write.Refused?
  }

  lemma CreateEnds(w: World, g: Group, admin: Uuid, o: CreateOutcome)
    requires ValidWorld(w) && !GroupClash(w.groups, g)
    ensures CreateGroupSaga(w, g, admin, o).0 == World(
              if CreateLeavesRow(o) then w.groups[g.id := g] else w.groups,
              w.members,
              if CreateLeavesTuples(o) then w.tuples + CreateTuples(g, admin) else w.tuples,
              w.log)
  {
  }

  ghost predicate Inserts(types: IdentityTypes, w: World, m: Membership, o: AddOutcome) {
    && o.groupRead && m.groupId in w.groups && o.identityRead && ValidMemberIdentity(types, m)
    && o.check.Allowed? && FreshMember(w, m)
  }

  predicate AddLeavesRow(o: AddOutcome) {
    o.insert.ReplyLost? || (o.insert.Done? && (o.write.Done? || o.undo.Refused?))
  }

  predicate AddLeavesTuple(o: AddOutcome) {
    o.insert.Done? && !o.write.Refused?
  }

  predicate AddAnnounces(o: AddOutcome) {
    o.insert.Done? && o.write.Done?
  }

  lemma AddEnds(types: IdentityTypes, w: World, m: Membership, o: AddOutcome)
    requires ValidWorld(w)
    ensures AddMemberSaga(types, w, m, o).0 ==
            if !Inserts(types, w, m, o) then w
            else World(
              w.groups,
              if AddLeavesRow(o) then w.members + {m} else w.members,
              if AddLeavesTuple(o) then w.tuples + {MembershipTuple(m)} else w.tuples,
              if AddAnnounces(o) then w.log + [Attempt(AddedEvent(m), o.delivered)] else w.log)
  {
  }

  ghost predicate Removes(w: World, g: Uuid, u: Uuid, o: RemoveOutcome) {
    o.groupRead && g in w.groups && o.rowRead && HasPair(w.members, g, u)
  }

  predicate RemoveDropsRow(o: RemoveOutcome) {
    !o.remove.Refused?
  }

  predicate RemoveDropsTuple(o: RemoveOutcome) {
    o.remove.Done? && !o.write.Refused?
  }

  predicate RemoveAnnounces(o: RemoveOutcome) {
    o.remove.Done? && o.write.Done?
  }

  lemma RemoveEnds(w: World, g: Uuid, u: Uuid, o: RemoveOutcome)
    requires ValidWorld(w)
    ensures RemoveMemberSaga(w, g, u, o).0 ==
            if !Removes(w, g, u, o) then w
            else World(
              w.groups,
              if RemoveDropsRow(o) then WithoutMember(w.members, g, u) else w.members,
              if RemoveDropsTuple(o) then w.tuples - {MemberTuple(g, u)} else w.tuples,
              if RemoveAnnounces(o) then
                w.log + [Attempt(RemovedEvent(FindMember(w.members, g, u).value), o.delivered)]
              else w.log)
  {
  }

  ghost predicate Deletes(w: World, g: Uuid, o: DeleteOutcome) {
    o.groupRead && g in w.groups && Listed(w, g, o)
  }

  predicate DeleteDropsTuples(o: DeleteOutcome) {
    !o.tuples.Refused?
  }

  predicate DeleteDropsRow(o: DeleteOutcome) {
    o.tuples.Done? && !o.row.Refused?
  }

  predicate DeleteAnnounces(o: DeleteOutcome) {
    o.tuples.Done? && o.row.Done?
  }

  lemma DeleteEnds(w: World, g: Uuid, o: DeleteOutcome)
    requires CanDelete(w, g, o)
    ensures DeleteGroupSaga(w, g, o).0 ==
            if !Deletes(w, g, o) then w
            else World(
              if DeleteDropsRow(o) then w.groups - {g} else w.groups,
              if DeleteDropsRow(o) then WithoutGroup(w.members, g) else w.members,
              if DeleteDropsTuples(o) then w.tuples - TuplesOfGroup(w, w.groups[g]) else w.tuples,
              if DeleteAnnounces(o) then w.log + Announcements(w.groups[g], o.order, o.delivered) else w.log)
  {
  }

  // ----- which requests drift ------------------------------------------------------------------

  /** Exactly the outcomes after which rows and tuples differ. */
  ghost predicate Drifts(types: IdentityTypes, w: World, s: Step) {
    match s
    case Creating(g, _, o) => !GroupClash(w.groups, g) && CreateLeavesRow(o) != CreateLeavesTuples(o)
    case Updating(_, _) => false
    case Adding(m, o) => Inserts(types, w, m, o) && AddLeavesRow(o) != AddLeavesTuple(o)
    case Removing(g, u, o) => Removes(w, g, u, o) && RemoveDropsRow(o) != RemoveDropsTuple(o)
    case Deleting(g, o) => Deletes(w, g, o) && DeleteDropsRow(o) != DeleteDropsTuples(o)
    case Repairing(_) => false
  }

  lemma CreatedAgrees(w: World, g: Group, admin: Uuid)
    requires ValidWorld(w) && Agree(w) && g.id !in w.groups
    ensures Agree(w.(groups := w.groups[g.id := g], tuples := w.tuples + CreateTuples(g, admin)))
  {
    TuplesInjective();
    KindsApart();
    hide GroupOrgTuple, GroupAdminTuple, MemberTuple, ValidTables;
    var w' := w.(groups := w.groups[g.id := g], tuples := w.tuples + CreateTuples(g, admin));
    forall x, y ensures AgreeAt(w', x, y) {
      assert AgreeAt(w, x, y);
    }
  }

  lemma CreateFromAgreement(types: IdentityTypes, w: World, g: Group, admin: Uuid, o: CreateOutcome)
    requires ValidWorld(w) && Agree(w)
    ensures Agree(CreateGroupSaga(w, g, admin, o).0) <==> !Drifts(types, w, Creating(g, admin, o))
  {
    if !GroupClash(w.groups, g) {
      var w' := CreateGroupSaga(w, g, admin, o).0;
      CreateEnds(w, g, admin, o);
      CreatedAgrees(w, g, admin);
      assert AgreeAt(w, g.id, g.organizationId);
      assert CreateLeavesRow(o) != CreateLeavesTuples(o) ==> !AgreeAt(w', g.id, g.organizationId);
    }
  }

  lemma UpdateKeepsAgreement(w: World, input: UpdateGroupInput, o: UpdateOutcome)
    requires ValidWorld(w) && Agree(w)
    ensures Agree(UpdateGroupSaga(w, input, o).0)
  {
    hide GroupOrgTuple, MemberTuple, UpdateClash;
    var w' := UpdateGroupSaga(w, input, o).0;
    forall x, y ensures AgreeAt(w', x, y) {
      assert AgreeAt(w, x, y);
    }
  }

  lemma AddedAgrees(w: World, m: Membership)
    requires Agree(w)
    ensures Agree(w.(members := w.members + {m}, tuples := w.tuples + {MembershipTuple(m)}))
  {
    TuplesInjective();
    KindsApart();
    hide GroupOrgTuple, MemberTuple;
    var w' := w.(members := w.members + {m}, tuples := w.tuples + {MembershipTuple(m)});
    forall x, y ensures AgreeAt(w', x, y) {
      assert AgreeAt(w, x, y);
      assert m in w'.members;
    }
  }

  lemma AddFromAgreement(types: IdentityTypes, w: World, m: Membership, o: AddOutcome)
    requires ValidWorld(w) && Agree(w)
    ensures Agree(AddMemberSaga(types, w, m, o).0) <==> !Drifts(types, w, Adding(m, o))
  {
    AddEnds(types, w, m, o);
    if Inserts(types, w, m, o) {
      var w' := AddMemberSaga(types, w, m, o).0;
      AddedAgrees(w, m);
      LogIsNoMatter(w', w.log);
      assert AgreeAt(w, m.groupId, m.memberId);
      if AddLeavesRow(o) && !AddLeavesTuple(o) {
        assert m in w'.members;
      }
      assert AddLeavesRow(o) != AddLeavesTuple(o) ==> !AgreeAt(w', m.groupId, m.memberId);
    }
  }

  lemma RemovedAgrees(w: World, g: Uuid, u: Uuid)
    requires Agree(w)
    ensures Agree(w.(members := WithoutMember(w.members, g, u), tuples := w.tuples - {MemberTuple(g, u)}))
  {
    TuplesInjective();
    KindsApart();
    hide GroupOrgTuple, MemberTuple;
    var w' := w.(members := WithoutMember(w.members, g, u), tuples := w.tuples - {MemberTuple(g, u)});
    forall x, y ensures AgreeAt(w', x, y) {
      assert AgreeAt(w, x, y);
      if HasPair(w.members, x, y) && !(x == g && y == u) {
        var m :| m in w.members && m.groupId == x && m.memberId == y;
        assert m in w'.members;
      }
    }
  }

  lemma RemoveFromAgreement(types: IdentityTypes, w: World, g: Uuid, u: Uuid, o: RemoveOutcome)
    requires ValidWorld(w) && Agree(w)
    ensures Agree(RemoveMemberSaga(w, g, u, o).0) <==> !Drifts(types, w, Removing(g, u, o))
  {
    RemoveEnds(w, g, u, o);
    if Removes(w, g, u, o) {
      var w' := RemoveMemberSaga(w, g, u, o).0;
      RemovedAgrees(w, g, u);
      LogIsNoMatter(w', w.log);
      assert AgreeAt(w, g, u);
      assert RemoveDropsRow(o) && !RemoveDropsTuple(o) ==> !AgreeAt(w', g, u);
    }
  }

  /** The batch takes the group's own tuples and no others. */
  lemma TuplesOfGroupExact(w: World, g: Group)
    ensures forall x, y :: GroupOrgTuple(x, y) in TuplesOfGroup(w, g) <==> x == g.id && y == g.organizationId
    ensures forall x, u :: MemberTuple(x, u) in TuplesOfGroup(w, g) <==> x == g.id && HasPair(w.members, x, u)
    ensures forall x, a :: GroupAdminTuple(x, a) in TuplesOfGroup(w, g) <==>
                             x == g.id && Some(a) in AdminUsers(w.tuples, g.id)
  {
    TuplesInjective();
    KindsApart();
    hide GroupOrgTuple, MemberTuple, GroupAdminTuple, AdminUsers;
    forall x, u | x == g.id && HasPair(w.members, x, u) ensures MemberTuple(x, u) in TuplesOfGroup(w, g) {
      var m :| m in w.members && m.groupId == x && m.memberId == u;
      assert m in MembersOf(w.members, g.id);
    }
    forall x, a | x == g.id && Some(a) in AdminUsers(w.tuples, g.id)
      ensures GroupAdminTuple(x, a) in TuplesOfGroup(w, g) {
      assert Some(a) in AdminUsers(w.tuples, g.id) && Some(a).Some?;
    }
  }

  lemma DeletedAgrees(w: World, g: Uuid)
    requires ValidWorld(w) && Agree(w) && g in w.groups
    ensures Agree(w.(groups := w.groups - {g}, members := WithoutGroup(w.members, g),
                     tuples := w.tuples - TuplesOfGroup(w, w.groups[g])))
  {
    TuplesOfGroupExact(w, w.groups[g]);
    hide GroupOrgTuple, MemberTuple, TuplesOfGroup;
    var w' := w.(groups := w.groups - {g}, members := WithoutGroup(w.members, g),
                 tuples := w.tuples - TuplesOfGroup(w, w.groups[g]));
    forall x, y ensures AgreeAt(w', x, y) {
      assert AgreeAt(w, x, y);
      if HasPair(w.members, x, y) && x != g {
        var m :| m in w.members && m.groupId == x && m.memberId == y;
        assert m in w'.members;
      }
    }
  }

  lemma DeleteFromAgreement(types: IdentityTypes, w: World, g: Uuid, o: DeleteOutcome)
    requires ValidWorld(w) && Agree(w) && CanDelete(w, g, o)
    ensures Agree(DeleteGroupSaga(w, g, o).0) <==> !Drifts(types, w, Deleting(g, o))
  {
    DeleteEnds(w, g, o);
    if Deletes(w, g, o) {
      var w' := DeleteGroupSaga(w, g, o).0;
      DeletedAgrees(w, g);
      LogIsNoMatter(w', w.log);
      TuplesOfGroupExact(w, w.groups[g]);
      assert DeleteDropsTuples(o) && !DeleteDropsRow(o) ==> !AgreeAt(w', g, g);
    }
  }

  /** From agreement, a request ends in agreement if and only if its calls did
      not fail in one of the drifting combinations. */
  lemma RequestFromAgreement(types: IdentityTypes, w: World, s: Step, w': World)
    requires ValidWorld(w) && Agree(w) && Takes(types, w, s, w') && !s.Repairing?
    ensures Agree(w') <==> !Drifts(types, w, s)
  {
    hide CreateGroupSaga, UpdateGroupSaga, AddMemberSaga, RemoveMemberSaga, DeleteGroupSaga, Agree, ValidWorld;
    match s
    case Creating(g, admin, o) => CreateFromAgreement(types, w, g, admin, o);
    case Updating(input, o) => UpdateKeepsAgreement(w, input, o);
    case Adding(m, o) => AddFromAgreement(types, w, m, o);
    case Removing(g, u, o) => RemoveFromAgreement(types, w, g, u, o);
    case Deleting(g, o) => DeleteFromAgreement(types, w, g, o);
    case Repairing(_) =>
  }

  // ----- reconciliation and agreement -------------------------------------------------------------

  lemma PairInGoal(ids: set<Uuid>, w: World, g: Uuid, u: Uuid)
    ensures InGoal(ids, w, MemberTuple(g, u)) <==> HasPair(w.members, g, u) && u in ids
  {
    TuplesInjective();
    ConstructedTuplesAreManaged(g, u);
    var live := Live(ids, w.members);
    if HasPair(w.members, g, u) && u in ids {
      var m :| m in w.members && m.groupId == g && m.memberId == u;
      assert m in live && MemberTuple(g, u) == MembershipTuple(m);
    }
    if MemberBacked(live, MemberTuple(g, u)) {
      var m :| m in live && MemberTuple(g, u) == MembershipTuple(m);
      assert m in w.members && m.groupId == g && m.memberId == u;
    }
  }

  lemma OrgInGoal(ids: set<Uuid>, w: World, g: Uuid, x: Uuid)
    ensures InGoal(ids, w, GroupOrgTuple(g, x)) <==> g in w.groups && w.groups[g].organizationId == x
  {
    GroupObjectReadBack(g);
    ConstructedTuplesAreManaged(g, x);
    if g in w.groups && OrganizationObject(x) == OrganizationObject(w.groups[g].organizationId) {
      OrganizationObjectInjective(x, w.groups[g].organizationId);
    }
  }

  /** Whatever world it starts from, a completed reconciliation ends in agreement. */
  lemma ReconciliationRestoresAgreement(ids: set<Uuid>, w: World, w': World)
    requires Reconciled(ids, w, true, w')
    ensures Agree(w')
  {
    CompleteRunReachesGoal(ids, w, w');
    hide Reconciled;
    forall g, x ensures AgreeAt(w', g, x) {
      var t, org := MemberTuple(g, x), GroupOrgTuple(g, x);
      GoalMembership(ids, w, t);
      GoalMembership(ids, w, org);
      PairInGoal(ids, w, g, x);
      OrgInGoal(ids, w, g, x);
      LivePair(ids, w.members, g, x);
      if g in w.groups {
        GoalMembership(ids, w, GroupOrgTuple(g, w.groups[g].organizationId));
        OrgInGoal(ids, w, g, w.groups[g].organizationId);
      }
      hide InGoal, GoalTuples, GroupOrgTuple, MemberTuple, HasPair, Live;
    }
  }

  lemma LivePair(ids: set<Uuid>, members: Memberships, g: Uuid, u: Uuid)
    ensures HasPair(Live(ids, members), g, u) <==> HasPair(members, g, u) && u in ids
  {
  }

  ghost predicate Undrifted(types: IdentityTypes, h: History)
    requires |h.worlds| == |h.steps| + 1
  {
    forall i :: 0 <= i < |h.steps| ==>
      !Drifts(types, h.worlds[i], h.steps[i]) && h.steps[i] != Repairing(false)
  }

  /** Agreement is an invariant of every run that avoids the drifting combinations
      and completes its reconciliations. */
  lemma {:induction false} AgreementInvariant(types: IdentityTypes, h: History, n: nat)
    requires IsRun(types, h) && Agree(h.worlds[0]) && Undrifted(types, h) && n < |h.worlds|
    ensures Agree(h.worlds[n])
  {
    if n > 0 {
      AgreementInvariant(types, h, n - 1);
      RunKeepsSchema(types, h, n - 1);
      hide Agree, ValidWorld, Drifts, Reconciled;
      var w, s, w' := h.worlds[n - 1], h.steps[n - 1], h.worlds[n];
      assert Takes(types, h.worlds[n - 1], h.steps[n - 1], h.worlds[n - 1 + 1]);
      if s.Repairing? {
        ReconciliationRestoresAgreement(types.Keys, w, w');
      } else {
        RequestFromAgreement(types, w, s, w');
      }
    }
  }

  // ----- where drift comes from ---------------------------------------------------------------------

  datatype Drift =
    | BareGroup(group: Uuid) | BarePair(group: Uuid, member: Uuid)
    | StaleOrg(group: Uuid, organization: Uuid) | StalePair(group: Uuid, member: Uuid)

  ghost predicate Has(w: World, d: Drift) {
    match d
    case BareGroup(g) => GroupBare(w, g)
    case BarePair(g, u) => PairBare(w, g, u)
    case StaleOrg(g, x) => OrgStale(w, g, x)
    case StalePair(g, u) => PairStale(w, g, u)
  }

  /** The steps that can bring a drift about: a compensation that failed too, a
      deletion stopped between tuples and row, a removal stopped between row
      and tuple; a stale org tuple takes a lost reply besides. */
  ghost predicate Causes(types: IdentityTypes, w: World, s: Step, w': World, d: Drift) {
    match (d, s)
    case (BareGroup(g), Creating(x, _, o)) => x.id == g && CreateLeavesRow(o) && !CreateLeavesTuples(o)
    case (BareGroup(g), Deleting(x, o)) => x == g && Deletes(w, x, o) && DeleteDropsTuples(o) && !DeleteDropsRow(o)
    case (BarePair(g, u), Adding(m, o)) =>
      m.groupId == g && m.memberId == u && Inserts(types, w, m, o) && AddLeavesRow(o) && !AddLeavesTuple(o)
    case (BarePair(g, _), Deleting(x, o)) => x == g && Deletes(w, x, o) && DeleteDropsTuples(o) && !DeleteDropsRow(o)
    case (StaleOrg(g, x), Creating(y, _, o)) =>
      y.id == g && y.organizationId == x && !CreateLeavesRow(o) && CreateLeavesTuples(o)
    case (StalePair(g, u), Adding(m, o)) =>
      m.groupId == g && m.memberId == u && Inserts(types, w, m, o) && !AddLeavesRow(o) && AddLeavesTuple(o)
    case (StalePair(g, u), Removing(x, y, o)) =>
      x == g && y == u && Removes(w, x, y, o) && RemoveDropsRow(o) && !RemoveDropsTuple(o)
    case (StalePair(g, u), Repairing(completed)) =>
      !completed && HasPair(w.members, g, u) && !HasPair(w'.members, g, u)
    case _ => false
  }

  lemma CreateCauses(types: IdentityTypes, w: World, x: Group, admin: Uuid, o: CreateOutcome, d: Drift)
    requires ValidWorld(w) && !Has(w, d)
    ensures var w' := CreateGroupSaga(w, x, admin, o).0;
            Has(w', d) ==> Causes(types, w, Creating(x, admin, o), w', d)
  {
    if !GroupClash(w.groups, x) {
      CreateEnds(w, x, admin, o);
      TuplesInjective();
      KindsApart();
    }
    hide GroupOrgTuple, GroupAdminTuple, MemberTuple, CreateGroupSaga, GroupClash, ValidTables;
  }

  lemma UpdateCauses(w: World, input: UpdateGroupInput, o: UpdateOutcome, d: Drift)
    requires ValidWorld(w) && !Has(w, d)
    ensures !Has(UpdateGroupSaga(w, input, o).0, d)
  {
  }

  lemma AddCauses(types: IdentityTypes, w: World, m: Membership, o: AddOutcome, d: Drift)
    requires ValidWorld(w) && !Has(w, d)
    ensures var w' := AddMemberSaga(types, w, m, o).0;
            Has(w', d) ==> Causes(types, w, Adding(m, o), w', d)
  {
    AddEnds(types, w, m, o);
    TuplesInjective();
    KindsApart();
    hide GroupOrgTuple, MemberTuple, AddMemberSaga, ValidTables, Inserts;
    if d.StalePair? && HasPair(w.members, d.group, d.member) {
      var r :| r in w.members && r.groupId == d.group && r.memberId == d.member;
      assert r in AddMemberSaga(types, w, m, o).0.members;
    }
  }

  lemma RemoveCauses(types: IdentityTypes, w: World, g: Uuid, u: Uuid, o: RemoveOutcome, d: Drift)
    requires ValidWorld(w) && !Has(w, d)
    ensures var w' := RemoveMemberSaga(w, g, u, o).0;
            Has(w', d) ==> Causes(types, w, Removing(g, u, o), w', d)
  {
    RemoveEnds(w, g, u, o);
    TuplesInjective();
    KindsApart();
    hide GroupOrgTuple, MemberTuple, RemoveMemberSaga, ValidTables, Removes;
    if d.StalePair? && HasPair(w.members, d.group, d.member) && !(d.group == g && d.member == u) {
      var r :| r in w.members && r.groupId == d.group && r.memberId == d.member;
      assert r in RemoveMemberSaga(w, g, u, o).0.members;
    }
  }

  lemma DeleteCauses(types: IdentityTypes, w: World, g: Uuid, o: DeleteOutcome, d: Drift)
    requires ValidWorld(w) && CanDelete(w, g, o) && !Has(w, d)
    ensures var w' := DeleteGroupSaga(w, g, o).0;
            Has(w', d) ==> Causes(types, w, Deleting(g, o), w', d)
  {
    DeleteEnds(w, g, o);
    var w' := DeleteGroupSaga(w, g, o).0;
    if Deletes(w, g, o) {
      TuplesOfGroupExact(w, w.groups[g]);
      hide GroupOrgTuple, MemberTuple, DeleteGroupSaga, TuplesOfGroup, CanDelete, Deletes;
      if d.StalePair? && HasPair(w.members, d.group, d.member) && d.group != g {
        var r :| r in w.members && r.groupId == d.group && r.memberId == d.member;
        assert r in w'.members;
      }
    }
  }

  lemma AgreementHasNoDrift(w: World, d: Drift)
    requires Agree(w)
    ensures !Has(w, d)
  {
    match d
    case BareGroup(g) => assert AgreeAt(w, g, g);
    case BarePair(g, u) => assert AgreeAt(w, g, u);
    case StaleOrg(g, x) => assert AgreeAt(w, g, x);
    case StalePair(g, u) => assert AgreeAt(w, g, u);
  }

  /** What a reconciliation cut off anywhere can and cannot leave behind. */
  lemma PartialReconciliation(ids: set<Uuid>, w: World, w': World, g: Uuid, x: Uuid)
    requires Progressed(ALONE, ids, w, w')
    ensures GroupBare(w', g) ==> GroupBare(w, g)
    ensures OrgStale(w', g, x) ==> OrgStale(w, g, x)
    ensures PairBare(w', g, x) ==> PairBare(w, g, x)
    ensures PairStale(w', g, x) ==> PairStale(w, g, x) || HasPair(w.members, g, x)
  {
    AloneGroups(ids, w, w');
    EverythingQuiet(GroupOrgTuple(g, x));
    EverythingQuiet(MemberTuple(g, x));
    OrgInGoal(ids, w, g, x);
    PairInGoal(ids, w, g, x);
    if g in w.groups {
      var y := w.groups[g].organizationId;
      EverythingQuiet(GroupOrgTuple(g, y));
      OrgInGoal(ids, w, g, y);
    }
    hide InGoal, Quiet, GroupOrgTuple, MemberTuple;
    if m :| m in w'.members && m.groupId == g && m.memberId == x {
      assert QuietPair(ALONE, g, x) && MembershipTuple(m) == MemberTuple(g, x) && m in w.members;
    }
  }

  lemma ReconcileCauses(types: IdentityTypes, w: World, completed: bool, w': World, d: Drift)
    requires ValidWorld(w) && Reconciled(types.Keys, w, completed, w') && !Has(w, d)
    ensures Has(w', d) ==> Causes(types, w, Repairing(completed), w', d)
  {
    hide Progressed, Converged, PublishedExactly, CutOff, GroupOrgTuple, MemberTuple, ValidTables;
    match d
    case BareGroup(g) => PartialReconciliation(types.Keys, w, w', g, g);
    case BarePair(g, u) => PartialReconciliation(types.Keys, w, w', g, u);
    case StaleOrg(g, x) => PartialReconciliation(types.Keys, w, w', g, x);
    case StalePair(g, u) =>
      PartialReconciliation(types.Keys, w, w', g, u);
      if completed {
        ReconciliationRestoresAgreement(types.Keys, w, w');
        AgreementHasNoDrift(w', d);
      }
  }

  /** A drift that a step brings is one that the step is named for. */
  lemma NewDriftHasCause(types: IdentityTypes, w: World, s: Step, w': World, d: Drift)
    requires ValidWorld(w) && Takes(types, w, s, w') && !Has(w, d) && Has(w', d)
    ensures Causes(types, w, s, w', d)
  {
    hide CreateGroupSaga, UpdateGroupSaga, AddMemberSaga, RemoveMemberSaga, DeleteGroupSaga, Has, Causes, ValidWorld,
         Reconciled;
    match s
    case Creating(g, admin, o) => CreateCauses(types, w, g, admin, o, d);
    case Updating(input, o) => UpdateCauses(w, input, o, d);
    case Adding(m, o) => AddCauses(types, w, m, o, d);
    case Removing(g, u, o) => RemoveCauses(types, w, g, u, o, d);
    case Deleting(g, o) => DeleteCauses(types, w, g, o, d);
    case Repairing(completed) => ReconcileCauses(types, w, completed, w', d);
  }

  /** Drift classification: whatever drift a run ends with and did not start
      with, one of its steps brought it, and was cut short in the one way that
      brings that drift. */
  lemma {:induction false} DriftHasCulprit(types: IdentityTypes, h: History, n: nat, d: Drift)
    requires IsRun(types, h) && n < |h.worlds| && !Has(h.worlds[0], d) && Has(h.worlds[n], d)
    ensures exists i :: 0 <= i < n && Causes(types, h.worlds[i], h.steps[i], h.worlds[i + 1], d)
  {
    hide Takes, Has, Causes;
    if n > 0 {
      if Has(h.worlds[n - 1], d) {
        DriftHasCulprit(types, h, n - 1, d);
      } else {
        RunKeepsSchema(types, h, n - 1);
        assert Takes(types, h.worlds[n - 1], h.steps[n - 1], h.worlds[n - 1 + 1]);
        NewDriftHasCause(types, h.worlds[n - 1], h.steps[n - 1], h.worlds[n], d);
        assert Causes(types, h.worlds[n - 1], h.steps[n - 1], h.worlds[n - 1 + 1], d);
      }
    }
  }

  /** From agreement, a reconciliation cut off anywhere leaves at most one drift:
      the tuple of the one row it had just removed. */
  lemma CutOffLeavesOneStalePair(ids: set<Uuid>, w: World, w': World, a: Membership, b: Membership)
    requires ValidWorld(w) && Agree(w) && Reconciled(ids, w, false, w')
    requires PairStale(w', a.groupId, a.memberId) && PairStale(w', b.groupId, b.memberId)
    ensures a.groupId == b.groupId && a.memberId == b.memberId
  {
    hide Progressed, PublishedExactly, MemberTuple, ValidTables, CutOff;
    RemovedRowOf(ids, w, w', a.groupId, a.memberId);
    RemovedRowOf(ids, w, w', b.groupId, b.memberId);
    OneRowNotFollowedUp(ids, w, w');
  }

  lemma RemovedRowOf(ids: set<Uuid>, w: World, w': World, g: Uuid, u: Uuid)
    requires Agree(w) && Progressed(ALONE, ids, w, w') && PairStale(w', g, u)
    ensures exists m :: m in w.members - w'.members && m.groupId == g && m.memberId == u
                         && MembershipTuple(m) in w'.tuples
  {
    PartialReconciliation(ids, w, w', g, u);
    assert AgreeAt(w, g, u);
    hide MemberTuple;
    var m :| m in w.members && m.groupId == g && m.memberId == u;
    assert m in w.members - w'.members && MembershipTuple(m) in w'.tuples;
  }

  lemma OneRowNotFollowedUp(ids: set<Uuid>, w: World, w': World)
    requires Reconciled(ids, w, false, w')
    ensures forall m, m' :: (m in w.members - w'.members && m' in w.members - w'.members
                             && MembershipTuple(m) in w'.tuples && MembershipTuple(m') in w'.tuples) ==> m == m'
  {
  }
}
