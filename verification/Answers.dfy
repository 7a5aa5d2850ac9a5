/** What the answer to a request means: for each request, exactly when it gets
    which answer, and what the world is then, in terms of the request alone. */
module Answers {
  import opened Wrappers
  import opened Uuids
  import opened Schema
  import opened Tuples
  import opened Worlds
  import opened RunSteps
  import opened Store
  import opened Sagas
  import opened Agreement
  import opened Ordering

  function OrgText(g: Uuid, organizationId: Uuid): TupleKey {
    TupleKey("organization:" + ToText(organizationId), "org", "group:" + ToText(g))
  }

  function AdminText(g: Uuid, admin: Uuid): TupleKey {
    TupleKey("identity:" + ToText(admin), "admin", "group:" + ToText(g))
  }

  function MemberText(g: Uuid, u: Uuid): TupleKey {
    TupleKey("identity:" + ToText(u), "member", "group:" + ToText(g))
  }

  // ----- CreateGroup ------------------------------------------------------------------------

  /** A group of the organization and source already has the name or the external
      identifier, or the identifier is in use. */
  ghost predicate Taken(groups: Groups, g: Group) {
    || g.id in groups
    || exists id :: id in groups && groups[id].organizationId == g.organizationId && groups[id].source == g.source
                    && (groups[id].name == g.name
                        || (g.externalId.Some? && groups[id].externalId == Some(g.externalId.value)))
  }

  lemma CreateAnswer(w: World, g: Group, admin: Uuid, o: CreateOutcome)
    requires ValidWorld(w)
    ensures var (w', r) := CreateGroupSaga(w, g, admin, o);
            && (r.Success? <==> !Taken(w.groups, g) && o.insert.Done? && o.write.Done?)
            && (r == Failure(AlreadyExists) <==> Taken(w.groups, g) && o.insert.Done?)
            && (r.Failure? && r.error != AlreadyExists ==> r.error == Internal)
            && (Taken(w.groups, g) ==> w' == w)
            && (r.Success? ==>
                  && r.value == g && w'.groups == w.groups[g.id := g] && w'.members == w.members && w'.log == w.log
                  && w'.tuples == w.tuples + {OrgText(g.id, g.organizationId), AdminText(g.id, admin)})
  {
    hide ToText;
    assert Taken(w.groups, g) <==> GroupClash(w.groups, g);
    if !GroupClash(w.groups, g) {
      CreateEnds(w, g, admin, o);
      hide GroupClash, Taken;
    }
  }

  /** However it ends, a creation makes nobody admin but the caller, and of no other group. */
  lemma CreationMakesCallerAdmin(w: World, g: Group, admin: Uuid, o: CreateOutcome, x: Uuid, a: Uuid)
    requires ValidWorld(w)
    ensures var (w', r) := CreateGroupSaga(w, g, admin, o);
            && (r.Success? ==> AdminText(g.id, admin) in w'.tuples)
            && (AdminText(x, a) in w'.tuples && AdminText(x, a) !in w.tuples ==> x == g.id && a == admin)
  {
    CreateAnswer(w, g, admin, o);
    TuplesInjective();
    KindsApart();
    assert AdminText(x, a) == GroupAdminTuple(x, a) && AdminText(g.id, admin) == GroupAdminTuple(g.id, admin);
    if !GroupClash(w.groups, g) {
      CreateEnds(w, g, admin, o);
    }
    hide GroupAdminTuple, AdminText, CreateGroupSaga, GroupOrgTuple, OrgText;
  }

  // ----- UpdateGroup ------------------------------------------------------------------------

  lemma UpdateAnswer(w: World, input: UpdateGroupInput, o: UpdateOutcome)
    requires ValidWorld(w)
    ensures var (w', r) := UpdateGroupSaga(w, input, o);
            var found := o.groupRead && input.id in w.groups;
            var named := input.name.Some? || input.description.Some?;
            && (r == Failure(NotFound) <==> o.groupRead && input.id !in w.groups)
            && (r == Failure(InvalidArgument) <==> found && !named)
            && (r == Failure(AlreadyExists) <==> found && named && NameTaken(w.groups, input) && o.update.Done?)
            && (r.Success? <==> found && named && !NameTaken(w.groups, input) && o.update.Done?)
            && (r.Success? ==>
                  && input.id in w'.groups && w'.groups[input.id] == r.value
                  && SetsExactly(w.groups[input.id], input, r.value))
            && (r.Failure? && r.error != Internal ==> w' == w)
  {
    if input.id in w.groups {
      OnlyNamesClash(w.groups, input);
      hide UpdateClash, NameTaken;
    }
  }

  /** However it ends, an update changes nothing but that row, and all of it or nothing. */
  lemma UpdateChangesOneRow(w: World, input: UpdateGroupInput, o: UpdateOutcome)
    requires ValidWorld(w)
    ensures var w' := UpdateGroupSaga(w, input, o).0;
            && w'.members == w.members && w'.tuples == w.tuples && w'.log == w.log && w'.groups.Keys == w.groups.Keys
            && (forall id :: id in w.groups && id != input.id ==> w'.groups[id] == w.groups[id])
            && (input.id in w.groups ==> || w'.groups[input.id] == w.groups[input.id]
                                         || SetsExactly(w.groups[input.id], input, w'.groups[input.id]))
  {
    hide UpdateClash;
  }

  // ----- AddMember --------------------------------------------------------------------------

  /** The type a request names is the identity's own. */
  predicate SameKind(t: MemberType, i: IdentityType) {
    || (t == User && i == UserIdentity) || (t == Agent && i == AgentIdentity) || (t == App && i == AppIdentity)
  }

  /** The request gets as far as the table. */
  predicate Admits(types: IdentityTypes, w: World, m: Membership, o: AddOutcome) {
    && o.groupRead && m.groupId in w.groups
    && o.identityRead && m.memberId in types && SameKind(m.memberType, types[m.memberId])
    && o.check == Allowed
  }

  lemma AddAnswer(types: IdentityTypes, w: World, m: Membership, o: AddOutcome)
    requires ValidWorld(w)
    ensures var (w', r) := AddMemberSaga(types, w, m, o);
            var found := o.groupRead && m.groupId in w.groups;
            var known := m.memberId in types && SameKind(m.memberType, types[m.memberId]);
            var there := HasPair(w.members, m.groupId, m.memberId);
            && (r == Failure(NotFound) <==> o.groupRead && m.groupId !in w.groups)
            && (r == Failure(InvalidArgument) <==> found && (!o.identityRead || !known || o.check == Denied))
            && (r.Success? <==> Admits(types, w, m, o) && o.insert.Done?
                                && if there then o.reread else FreshMember(w, m) && o.write.Done?)
            && (r.Failure? && r.error != NotFound && r.error != InvalidArgument ==> r.error == Internal)
  {
    hide NewMemberSaga, FreshMember, HasPair;
    NewMemberAnswer(w, m, o);
  }

  lemma NewMemberAnswer(w: World, m: Membership, o: AddOutcome)
    ensures NewMemberSaga(w, m, o).1 == if o.insert.Done? && o.write.Done? then Success(m) else Failure(Internal)
  {
  }

  /** The membership returned is one that is there: for a new pair the one asked
      for, with its tuple and one event; for a known pair the one there was, and nothing changes. */
  lemma AddReturnsStoredMembership(types: IdentityTypes, w: World, m: Membership, o: AddOutcome)
    requires ValidWorld(w) && AddMemberSaga(types, w, m, o).1.Success?
    ensures var (w', r) := AddMemberSaga(types, w, m, o);
            && r.value in w'.members && r.value.groupId == m.groupId && r.value.memberId == m.memberId
            && if HasPair(w.members, m.groupId, m.memberId) then r.value in w.members && w' == w
               else
                 && r.value == m && w'.groups == w.groups && w'.members == w.members + {m}
                 && w'.tuples == w.tuples + {MemberText(m.groupId, m.memberId)}
                 && w'.log == w.log + [Attempt(MembershipAdded(m.groupId, m.memberType, m.memberId), o.delivered)]
  {
    hide ToText;
    AddEnds(types, w, m, o);
  }

  // ----- RemoveMember -----------------------------------------------------------------------

  /** An absent membership is as good as a removed one. */
  lemma RemoveAnswer(w: World, g: Uuid, u: Uuid, o: RemoveOutcome)
    ensures var r := RemoveMemberSaga(w, g, u, o).1;
            && (r == Failure(NotFound) <==> o.groupRead && g !in w.groups)
            && (r.Success? <==> o.groupRead && g in w.groups && o.rowRead
                                && (HasPair(w.members, g, u) ==> o.remove.Done? && o.write.Done?))
            && (r.Failure? && r.error != NotFound ==> r.error == Internal)
  {
    hide HasPair, MembershipTuple;
  }

  /** After a success the membership is gone, and its tuple too if it had one to
      go with; if it was there, exactly that and one event is what changed. */
  lemma RemovedIsGone(w: World, g: Uuid, u: Uuid, o: RemoveOutcome)
    requires ValidWorld(w) && RemoveMemberSaga(w, g, u, o).1.Success?
    ensures var w' := RemoveMemberSaga(w, g, u, o).0;
            && !HasPair(w'.members, g, u)
            && (Agree(w) ==> MemberText(g, u) !in w'.tuples)
            && (!HasPair(w.members, g, u) ==> w' == w)
            && (forall m :: m in w.members && m.groupId == g && m.memberId == u ==>
                  && w'.groups == w.groups && w'.members == w.members - {m}
                  && w'.tuples == w.tuples - {MemberText(g, u)}
                  && w'.log == w.log + [Attempt(MembershipRemoved(g, m.memberType, u), o.delivered)])
  {
    hide ToText;
    RemoveEnds(w, g, u, o);
    assert MemberText(g, u) == MemberTuple(g, u);
    hide MemberText, MemberTuple, GroupOrgTuple;
    if Agree(w) {
      assert AgreeAt(w, g, u);
    }
  }

  // ----- DeleteGroup ------------------------------------------------------------------------

  /** Every admin tuple on the group's object has a user that parses. */
  ghost predicate AdminsReadable(w: World, g: Uuid) {
    forall t :: t in w.tuples && t.relation == "admin" && t.obj == "group:" + ToText(g) ==>
      HasPrefix(t.user, "identity:") && Parse(t.user[9..]).Some?
  }

  lemma DeleteAnswer(w: World, g: Uuid, o: DeleteOutcome)
    requires CanDelete(w, g, o)
    ensures var (w', r) := DeleteGroupSaga(w, g, o);
            && (r == Failure(NotFound) <==> o.groupRead && g !in w.groups)
            && (r.Success? <==>
                  && o.groupRead && g in w.groups
                  && AllDone(o.adminReads) && AdminsReadable(w, g) && AllDone(o.memberReads)
                  && o.tuples.Done? && o.row.Done?)
            && (r.Failure? && r.error != NotFound ==> r.error == Internal)
            && (!AdminsReadable(w, g) ==> w' == w)
  {
    ReadableMeansParsed(w, g);
    hide AdminsReadable, AdminUsers, TuplesOfGroup, Announcements, Lists;
  }

  lemma ReadableMeansParsed(w: World, g: Uuid)
    ensures AdminsReadable(w, g) <==> None !in AdminUsers(w.tuples, g)
  {
    hide ToText, Parse;
    forall t | t in w.tuples && t.relation == "admin" && t.obj == "group:" + ToText(g)
      ensures ParseIdentityObject(t.user) in AdminUsers(w.tuples, g) {
      assert t.obj == GroupObject(g);
    }
  }

  /** After a success, row and memberships are gone. */
  lemma DeletedIsGone(w: World, g: Uuid, o: DeleteOutcome)
    requires CanDelete(w, g, o) && DeleteGroupSaga(w, g, o).1.Success?
    ensures var w' := DeleteGroupSaga(w, g, o).0;
            && w'.groups == w.groups - {g}
            && (forall m :: m in w'.members <==> m in w.members && m.groupId != g)
            && w'.log == w.log + Announcements(w.groups[g], o.order, o.delivered)
  {
    DeleteEnds(w, g, o);
    hide AdminUsers, TuplesOfGroup, Announcements, Lists;
  }

  /** The events: a removal for each membership in listing order, then the deleted
      event with the group's own organization. */
  lemma DeletionEvents(w: World, g: Uuid, o: DeleteOutcome)
    requires g in w.groups && CanDelete(w, g, o)
    ensures var news := Announcements(w.groups[g], o.order, o.delivered);
            && |news| == |o.order| + 1 && |o.order| == |MembersOf(w.members, g)|
            && (forall m :: m in o.order <==> m in w.members && m.groupId == g)
            && (forall i :: 0 <= i < |o.order| ==>
                  news[i] == Attempt(MembershipRemoved(g, o.order[i].memberType, o.order[i].memberId), o.delivered[i]))
            && news[|o.order|]
                 == Attempt(GroupDeleted(w.groups[g].id, w.groups[g].organizationId), o.delivered[|o.order|])
  {
    ListedSize(o.order, MembersOf(w.members, g));
    forall i | 0 <= i < |o.order| ensures o.order[i].groupId == g {
      assert o.order[i] in o.order;
    }
  }

  /** The texts of the batch: the org tuple, one for each membership, one for each
      admin tuple there is, under the canonical text of its user. */
  ghost predicate InBatch(w: World, g: Uuid, t: TupleKey)
    requires g in w.groups
  {
    || t == OrgText(g, w.groups[g].organizationId)
    || (exists m :: m in w.members && m.groupId == g && t == MemberText(g, m.memberId))
    || exists x :: x in w.tuples && x.relation == "admin" && x.obj == "group:" + ToText(g)
                   && HasPrefix(x.user, "identity:") && Parse(x.user[9..]).Some?
                   && t == AdminText(g, Parse(x.user[9..]).value)
  }

  lemma BatchTexts(w: World, g: Uuid, t: TupleKey)
    requires ValidWorld(w) && g in w.groups
    ensures t in TuplesOfGroup(w, w.groups[g]) <==> InBatch(w, g, t)
  {
    hide ToText, Parse, ValidTables;
    assert w.groups[g].id == g by { KeyedById(w, g); }
    if m :| m in w.members && m.groupId == g && t == MemberText(g, m.memberId) {
      assert m in MembersOf(w.members, g) && t == MembershipTuple(m);
    }
    if x :| x in w.tuples && x.relation == "admin" && x.obj == "group:" + ToText(g)
            && HasPrefix(x.user, "identity:") && Parse(x.user[9..]).Some?
            && t == AdminText(g, Parse(x.user[9..]).value) {
      assert x.obj == GroupObject(g) && ParseIdentityObject(x.user) in AdminUsers(w.tuples, g);
      assert t == GroupAdminTuple(g, ParseIdentityObject(x.user).value);
    }
  }

  lemma KeyedById(w: World, g: Uuid)
    requires ValidWorld(w) && g in w.groups
    ensures w.groups[g].id == g
  {
  }

  /** Exactly the batch goes, and every other tuple stays. */
  lemma DeletedTuples(w: World, g: Uuid, o: DeleteOutcome, t: TupleKey)
    requires ValidWorld(w) && CanDelete(w, g, o) && DeleteGroupSaga(w, g, o).1.Success?
    ensures t in DeleteGroupSaga(w, g, o).0.tuples <==> t in w.tuples && !InBatch(w, g, t)
  {
    DeleteEnds(w, g, o);
    BatchTexts(w, g, t);
    hide InBatch, TuplesOfGroup, AdminUsers, Announcements;
  }

  /** In a world that agreed and was anchored, no tuple of the group is left. */
  lemma NothingOfGroupIsLeft(w: World, g: Uuid, o: DeleteOutcome, x: Uuid)
    requires ValidWorld(w) && CanDelete(w, g, o) && DeleteGroupSaga(w, g, o).1.Success? && Agree(w) && Safe(w)
    ensures var w' := DeleteGroupSaga(w, g, o).0;
            OrgText(g, x) !in w'.tuples && AdminText(g, x) !in w'.tuples && MemberText(g, x) !in w'.tuples
  {
    DeleteFromAgreement(map[], w, g, o);
    DeleteSafe(w, g, o);
    DeletedIsGone(w, g, o);
    var w' := DeleteGroupSaga(w, g, o).0;
    assert Agree(w') by { DeleteEnds(w, g, o); hide AdminUsers, TuplesOfGroup, Agree; }
    assert AgreeAt(w', g, x);
    assert OrgText(g, x) == GroupOrgTuple(g, x) && AdminText(g, x) == GroupAdminTuple(g, x)
           && MemberText(g, x) == MemberTuple(g, x);
    ConstructedTuplesAnchored(w'.groups, g, x);
    hide DeleteGroupSaga, GroupOrgTuple, GroupAdminTuple, MemberTuple, OrgText, AdminText, MemberText, Anchored;
  }
}
