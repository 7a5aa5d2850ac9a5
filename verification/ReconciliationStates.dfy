/** The snapshot a reconciliation run carries: rows and admin tuples by key string
    (internal/server/reconciliation.go). */
module ReconciliationStates {
  import opened Uuids
  import opened Schema
  import opened Tuples
  import opened Worlds
  import opened Goal
  import opened Clients
  import opened Reconciling

  function KeyStrings(ts: TupleSet): set<string> {
    set t | t in ts :: TupleKeyString(t)
  }

  ghost predicate AdminShaped(t: TupleKey) {
    t.relation == ADMIN_RELATION && ParseIdentityObject(t.user).Some? && CanonicalObject(t)
  }

  class ReconciliationState {
    var groups: Groups
    var memberships: map<string, Membership>
    var admins: set<string>
    /** The memberships and admin tuples whose key strings are held. */
    ghost var kept: Memberships
    ghost var adminTuples: TupleSet

    ghost predicate Valid()
      reads this
    {
      && memberships.Keys == KeyStrings(MemberTuples(kept))
      && admins == KeyStrings(adminTuples)
      && forall t :: t in adminTuples ==> AdminShaped(t)
    }

    ghost predicate HoldsGroups(gs: seq<Group>)
      reads this
    {
      && (forall k :: 0 <= k < |gs| ==> gs[k].id in groups)
      && (forall g :: g in groups ==> exists k :: 0 <= k < |gs| && gs[k].id == g && groups[g] == gs[k])
    }

    constructor (gs: seq<Group>, ms: seq<Membership>)
      ensures Valid() && HoldsGroups(gs)
      ensures kept == (set m | m in ms) && adminTuples == {}
    {
      assert KeyStrings(MemberTuples({})) == {};
      hide KeyStrings, MemberTuples, MembershipTuple, TupleKeyString, AdminShaped;
      var byId: Groups := map[];
      var i := 0;
      while i < |gs|
        invariant 0 <= i <= |gs|
        invariant forall k :: 0 <= k < i ==> gs[k].id in byId
        invariant forall g :: g in byId ==> exists k :: 0 <= k < i && gs[k].id == g && byId[g] == gs[k]
      {
        byId := byId[gs[i].id := gs[i]];
        i := i + 1;
      }
      var byKey: map<string, Membership> := map[];
      ghost var listed: Memberships := {};
      i := 0;
      while i < |ms|
        invariant 0 <= i <= |ms|
        invariant listed == set m | m in ms[..i]
        invariant byKey.Keys == KeyStrings(MemberTuples(listed))
      {
        byKey := byKey[TupleKeyString(MembershipTuple(ms[i])) := ms[i]];
        KeysOfOneMore(listed, ms[i]);
        listed := listed + {ms[i]};
        i := i + 1;
      }
      groups, memberships, admins := byId, byKey, {};
      kept, adminTuples := listed, {};
      assert ms[..|ms|] == ms;
    }

    method AddAdmin(t: TupleKey)
      requires Valid() && AdminShaped(t)
      modifies this`admins, this`adminTuples
      ensures Valid() && adminTuples == old(adminTuples) + {t}
    {
      admins := admins + {TupleKeyString(t)};
      adminTuples := adminTuples + {t};
    }

    method AddAdmins(ts: seq<TupleKey>)
      requires Valid() && forall t :: t in ts ==> AdminShaped(t)
      modifies this`admins, this`adminTuples
      ensures Valid() && adminTuples == old(adminTuples) + SetOf(ts)
    {
      var i := 0;
      while i < |ts|
        invariant 0 <= i <= |ts|
        invariant Valid() && adminTuples == old(adminTuples) + SetOf(ts[..i])
      {
        AddAdmin(ts[i]);
        assert ts[..i + 1] == ts[..i] + [ts[i]];
        i := i + 1;
      }
      assert ts[..|ts|] == ts;
    }

    /** Removing one membership's key removes no other membership. */
    method RemoveMembership(m: Membership)
      requires Valid()
      modifies this`memberships, this`kept
      ensures Valid() && kept == WithoutMember(old(kept), m.groupId, m.memberId)
    {
      var key := TupleKeyString(MembershipTuple(m));
      memberships := memberships - {key};
      KeysWithout(kept, m);
      kept := WithoutMember(kept, m.groupId, m.memberId);
    }

    /** Other relations never reach this test: the sweep filters them out first. */
    predicate TupleBackedByStore(t: TupleKey)
      requires IsManagedGroupTuple(t)
      reads this
    {
      if t.relation == ORG_RELATION then
        match ParseGroupObject(t.obj)
        case None => false
        case Some(g) => g in groups && t.user == OrganizationObject(groups[g].organizationId)
      else if t.relation == MEMBER_RELATION then TupleKeyString(t) in memberships
      else
        match ParseGroupObject(t.obj)
        case None => false
        case Some(g) => g in groups && TupleKeyString(t) in admins
    }

    /** Looking up key strings is looking up tuples. */
    lemma BackedExact(run: Run, t: TupleKey)
      requires Valid() && HoldsGroups(run.gs) && IsManagedGroupTuple(t)
      requires forall i, j :: 0 <= i < j < |run.gs| ==> run.gs[i].id != run.gs[j].id
      ensures TupleBackedByStore(t) <==> HeldBacked(run, kept, adminTuples, t)
    {
      hide ToText, Parse;
      if t.relation == MEMBER_RELATION {
        MemberKeyHeld(kept, t);
      } else if t.relation == ADMIN_RELATION {
        AdminKeyHeld(adminTuples, t);
      }
    }
  }

  lemma MemberKeyHeld(kept: Memberships, t: TupleKey)
    ensures TupleKeyString(t) in KeyStrings(MemberTuples(kept)) <==> MemberBacked(kept, t)
  {
    if TupleKeyString(t) in KeyStrings(MemberTuples(kept)) {
      var m :| m in kept && TupleKeyString(t) == TupleKeyString(MembershipTuple(m));
      MemberKeyExact(m.groupId, m.memberId, t);
    }
  }

  lemma AdminKeyHeld(admins: TupleSet, t: TupleKey)
    requires t.relation == ADMIN_RELATION && forall a :: a in admins ==> AdminShaped(a)
    ensures TupleKeyString(t) in KeyStrings(admins) <==> t in admins
  {
    hide ToText, Parse;
    if TupleKeyString(t) in KeyStrings(admins) {
      var a :| a in admins && TupleKeyString(t) == TupleKeyString(a);
      AdminKeyExact(ParseGroupObject(a.obj).value, a, t);
    }
  }

  lemma KeysWithout(kept: Memberships, m: Membership)
    ensures KeyStrings(MemberTuples(WithoutMember(kept, m.groupId, m.memberId)))
         == KeyStrings(MemberTuples(kept)) - {TupleKeyString(MembershipTuple(m))}
  {
    hide ToText, Parse;
    MembershipTuplesInjective();
    forall x | x in kept
      ensures TupleKeyString(MembershipTuple(x)) == TupleKeyString(MembershipTuple(m))
         <==> x.groupId == m.groupId && x.memberId == m.memberId {
      MemberKeyExact(x.groupId, x.memberId, MembershipTuple(m));
    }
    hide MembershipTuple, TupleKeyString;
  }

  lemma KeysOfOneMore(members: Memberships, m: Membership)
    ensures KeyStrings(MemberTuples(members + {m}))
         == KeyStrings(MemberTuples(members)) + {TupleKeyString(MembershipTuple(m))}
  {
  }

  lemma AdminsAreShaped(ts: seq<TupleKey>, g: Uuid, ids: set<Uuid>)
    requires forall t :: t in ts ==>
               t.relation == ADMIN_RELATION && t.obj == GroupObject(g) && ValidAdminUser(ids, t.user)
    ensures forall t :: t in ts ==> AdminShaped(t)
  {
    GroupObjectReadBack(g);
  }
}
