/** What a reconciliation leaves of the tuples it found, said in texts: which it
    never touches, and which of the others are there when it completes. */
module Sweeps {
  import opened Wrappers
  import opened Uuids
  import opened Schema
  import opened Tuples
  import opened Worlds
  import opened Goal
  import opened Progress

  /** Whoever else runs, no run, complete or cut off, adds or deletes a tuple whose
      object is no group: not an organization membership, not anything. */
  lemma ForeignObjectsKept(sc: Scope, ids: set<Uuid>, w: World, w': World, t: TupleKey)
    requires Progressed(sc, ids, w, w') && !HasPrefix(t.obj, "group:")
    ensures t in w'.tuples <==> t in w.tuples
  {
    assert Quiet(sc, t);
  }

  /** Nor one whose user is not of the kind its relation takes, nor one of any other relation. */
  lemma ForeignUsersAndRelationsKept(sc: Scope, ids: set<Uuid>, w: World, w': World, t: TupleKey)
    requires Progressed(sc, ids, w, w') && Quiet(sc, t)
    requires || (t.relation == "org" && !HasPrefix(t.user, "organization:"))
             || ((t.relation == "member" || t.relation == "admin") && !HasPrefix(t.user, "identity:"))
             || (t.relation != "org" && t.relation != "member" && t.relation != "admin")
    ensures t in w'.tuples <==> t in w.tuples
  {
  }

  /** Exactly which org tuples there are afterwards. */
  lemma OrgTuplesAfterRun(sc: Scope, ids: set<Uuid>, w: World, w': World, t: TupleKey)
    requires Converged(sc, ids, w, w') && Quiet(sc, t)
    requires t.relation == "org" && HasPrefix(t.user, "organization:") && HasPrefix(t.obj, "group:")
    ensures t in w'.tuples <==>
            match Parse(t.obj[6..])
            case None => false
            case Some(g) =>
              && g in w.groups && t.user == "organization:" + ToText(w.groups[g].organizationId)
              && (t in w.tuples || t.obj == "group:" + ToText(g))
  {
    hide Parse, ToText;
  }

  /** Exactly which member tuples there are afterwards: those of memberships whose identity exists. */
  lemma MemberTuplesAfterRun(sc: Scope, ids: set<Uuid>, w: World, w': World, t: TupleKey)
    requires Converged(sc, ids, w, w') && Quiet(sc, t)
    requires t.relation == "member" && HasPrefix(t.user, "identity:") && HasPrefix(t.obj, "group:")
    ensures t in w'.tuples <==>
            exists m :: m in w.members && m.memberId in ids
                        && t == TupleKey("identity:" + ToText(m.memberId), "member", "group:" + ToText(m.groupId))
  {
    hide Parse, ToText;
    if m :| m in w.members && m.memberId in ids
            && t == TupleKey("identity:" + ToText(m.memberId), "member", "group:" + ToText(m.groupId)) {
      assert m in Live(ids, w.members) && t == MembershipTuple(m);
    }
  }

  /** Exactly which admin tuples there are afterwards: none that was not there. */
  lemma AdminTuplesAfterRun(sc: Scope, ids: set<Uuid>, w: World, w': World, t: TupleKey)
    requires Converged(sc, ids, w, w') && Quiet(sc, t)
    requires t.relation == "admin" && HasPrefix(t.user, "identity:") && HasPrefix(t.obj, "group:")
    ensures t in w'.tuples <==>
            match (Parse(t.obj[6..]), Parse(t.user[9..]))
            case (Some(g), Some(a)) => t in w.tuples && g in w.groups && t.obj == "group:" + ToText(g) && a in ids
            case _ => false
  {
    hide Parse, ToText;
  }
}
