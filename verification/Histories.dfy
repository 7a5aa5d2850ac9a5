/** Runs of the service from any valid world, and what every one of them keeps
    in the tables. */
module Histories {
  import opened Wrappers
  import opened Uuids
  import opened Schema
  import opened Tuples
  import opened Worlds
  import opened Progress
  import opened Reconciling
  import opened Store
  import opened Sagas

  // ----- runs of the service --------------------------------------------------------------------

  /** Requests and reconciliations one after another, each with whatever failures. */
  datatype History = History(worlds: seq<World>, steps: seq<Step>)

  ghost predicate IsRun(types: IdentityTypes, h: History) {
    && |h.worlds| == |h.steps| + 1 && ValidWorld(h.worlds[0])
    && forall i :: 0 <= i < |h.steps| ==> Takes(types, h.worlds[i], h.steps[i], h.worlds[i + 1])
  }

  lemma CallKeepsSchema(w: World, e: Effect, o: Outcome)
    requires ValidWorld(w) && Admissible(w, e)
    ensures ValidWorld(AfterCall(w, e, o))
  {
    EffectsKeepSchema(w, e);
  }

  lemma CreateKeepsSchema(w: World, g: Group, admin: Uuid, o: CreateOutcome)
    requires ValidWorld(w)
    ensures ValidWorld(CreateGroupSaga(w, g, admin, o).0)
  {
    if !GroupClash(w.groups, g) {
      CallKeepsSchema(w, InsertGroup(g), o.insert);
      hide ValidWorld, ValidTables;
      var w1 := AfterCall(w, InsertGroup(g), o.insert);
      CallKeepsSchema(w1, WriteTuples(CreateTuples(g, admin), {}), o.write);
      CallKeepsSchema(AfterCall(w1, WriteTuples(CreateTuples(g, admin), {}), o.write), DeleteGroupRow(g.id), o.undo);
    }
  }

  lemma UpdateKeepsSchema(w: World, input: UpdateGroupInput, o: UpdateOutcome)
    requires ValidWorld(w)
    ensures ValidWorld(UpdateGroupSaga(w, input, o).0)
  {
    if input.id in w.groups {
      var row := Updated(w.groups[input.id], input);
      if !UpdateClash(w.groups, row) {
        CallKeepsSchema(w, ReplaceGroup(row), o.update);
      }
    }
  }

  lemma AddKeepsSchema(types: IdentityTypes, w: World, m: Membership, o: AddOutcome)
    requires ValidWorld(w)
    ensures ValidWorld(AddMemberSaga(types, w, m, o).0)
  {
    if FreshMember(w, m) {
      CallKeepsSchema(w, InsertMember(m), o.insert);
      hide ValidTables;
      var w1 := AfterCall(w, InsertMember(m), o.insert);
      var w2 := AfterCall(w1, WriteTuples({MembershipTuple(m)}, {}), o.write);
      CallKeepsSchema(w2, DeleteMember(m.groupId, m.memberId), o.undo);
    }
  }

  lemma RemoveKeepsSchema(w: World, g: Uuid, u: Uuid, o: RemoveOutcome)
    requires ValidWorld(w)
    ensures ValidWorld(RemoveMemberSaga(w, g, u, o).0)
  {
    CallKeepsSchema(w, DeleteMember(g, u), o.remove);
  }

  lemma DeleteKeepsSchema(w: World, g: Uuid, o: DeleteOutcome)
    requires ValidWorld(w) && CanDelete(w, g, o)
    ensures ValidWorld(DeleteGroupSaga(w, g, o).0)
  {
    hide TuplesOfGroup;
    CallKeepsSchema(w, DeleteGroupRow(g), o.row);
  }

  /** No request, however it fails, and no reconciliation breaks a constraint of the schema. */
  lemma StepKeepsSchema(types: IdentityTypes, w: World, s: Step, w': World)
    requires ValidWorld(w) && Takes(types, w, s, w')
    ensures ValidWorld(w')
  {
    hide CreateGroupSaga, UpdateGroupSaga, AddMemberSaga, RemoveMemberSaga, DeleteGroupSaga;
    match s
    case Creating(g, admin, o) => CreateKeepsSchema(w, g, admin, o);
    case Updating(input, o) => UpdateKeepsSchema(w, input, o);
    case Adding(m, o) => AddKeepsSchema(types, w, m, o);
    case Removing(g, u, o) => RemoveKeepsSchema(w, g, u, o);
    case Deleting(g, o) => DeleteKeepsSchema(w, g, o);
    case Repairing(completed) =>
  }

  lemma {:induction false} RunKeepsSchema(types: IdentityTypes, h: History, n: nat)
    requires IsRun(types, h) && n < |h.worlds|
    ensures ValidWorld(h.worlds[n])
  {
    if n > 0 {
      RunKeepsSchema(types, h, n - 1);
      hide Takes, ValidWorld;
      assert Takes(types, h.worlds[n - 1], h.steps[n - 1], h.worlds[n - 1 + 1]);
      StepKeepsSchema(types, h.worlds[n - 1], h.steps[n - 1], h.worlds[n]);
    }
  }

  // ----- member types ------------------------------------------------------------------------------

  /** Every membership whose identity exists has that identity's type. */
  ghost predicate TypesAgree(types: IdentityTypes, w: World) {
    forall m :: m in w.members && m.memberId in types ==> types[m.memberId] == ExpectedIdentityType(m.memberType)
  }

  lemma ExpectedTypesTellApart(a: MemberType, b: MemberType)
    ensures ExpectedIdentityType(a) == ExpectedIdentityType(b) <==> a == b
    ensures ExpectedIdentityType(a) != RunnerIdentity
  {
  }

  lemma StepKeepsTypes(types: IdentityTypes, w: World, s: Step, w': World)
    requires ValidWorld(w) && TypesAgree(types, w) && Takes(types, w, s, w')
    ensures TypesAgree(types, w')
  {
    hide TuplesOfGroup, CreateTuples, MembershipTuple, Converged, CutOff, PublishedExactly, GroupClash, UpdateClash;
    if s.Repairing? {
      AloneGroups(types.Keys, w, w');
    }
    hide Progressed;
  }

  lemma {:induction false} MemberTypeInvariant(types: IdentityTypes, h: History, n: nat)
    requires IsRun(types, h) && TypesAgree(types, h.worlds[0]) && n < |h.worlds|
    ensures TypesAgree(types, h.worlds[n])
    ensures forall m :: m in h.worlds[n].members && m.memberId in types ==> types[m.memberId] != RunnerIdentity
  {
    hide Takes;
    if n > 0 {
      MemberTypeInvariant(types, h, n - 1);
      RunKeepsSchema(types, h, n - 1);
      assert Takes(types, h.worlds[n - 1], h.steps[n - 1], h.worlds[n - 1 + 1]);
      StepKeepsTypes(types, h.worlds[n - 1], h.steps[n - 1], h.worlds[n]);
    }
    forall m | m in h.worlds[n].members && m.memberId in types ensures types[m.memberId] != RunnerIdentity {
      ExpectedTypesTellApart(m.memberType, m.memberType);
    }
  }

  /** Adding a member that is already there gives back a row of the type asked for. */
  lemma RepeatedAddReturnsRequestedType(types: IdentityTypes, h: History, n: nat, m: Membership, o: AddOutcome)
    requires IsRun(types, h) && TypesAgree(types, h.worlds[0]) && n < |h.worlds|
    requires AddMemberSaga(types, h.worlds[n], m, o).1.Success?
    ensures var row := AddMemberSaga(types, h.worlds[n], m, o).1.value;
            row.groupId == m.groupId && row.memberId == m.memberId && row.memberType == m.memberType
  {
    hide Takes;
    MemberTypeInvariant(types, h, n);
    ExpectedTypesTellApart(AddMemberSaga(types, h.worlds[n], m, o).1.value.memberType, m.memberType);
  }
}
