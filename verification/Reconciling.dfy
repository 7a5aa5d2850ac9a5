/** What a reconciliation run has established after each of its steps. */
module Reconciling {
  import opened Uuids
  import opened Schema
  import opened Tuples
  import opened Worlds
  import opened Goal
  import opened Progress
  import opened Clients

  datatype Report = Report(
    groupsScanned: int, membershipsScanned: int, tuplesWritten: int, tuplesDeleted: int,
    orphanedMembershipsRemoved: int)

  /** A run, seen from outside: who may interfere, which identities exist, the
      world and the write requests it started from, and the rows it listed. */
  datatype Run = Run(
    sc: Scope, ids: set<Uuid>, w0: World, requests0: seq<WriteRequest>, gs: seq<Group>, ms: seq<Membership>)

  function OrgTupleOf(g: Group): TupleKey {
    GroupOrgTuple(g.id, g.organizationId)
  }

  ghost predicate Underway(run: Run, w: World) {
    Progressed(run.sc, run.ids, run.w0, w)
  }

  /** The listed rows agree with the starting tables wherever nobody interferes. */
  ghost predicate SnapshotOf(run: Run) {
    && (forall i, j :: 0 <= i < j < |run.gs| ==> run.gs[i].id != run.gs[j].id)
    && (forall i, j :: 0 <= i < j < |run.ms| ==>
          run.ms[i].groupId != run.ms[j].groupId || run.ms[i].memberId != run.ms[j].memberId)
    && (forall i :: 0 <= i < |run.gs| && QuietGroup(run.sc, run.gs[i].id) ==>
          run.gs[i].id in run.w0.groups && run.w0.groups[run.gs[i].id] == run.gs[i])
    && (forall g :: g in run.w0.groups && QuietGroup(run.sc, g) ==> run.w0.groups[g] in run.gs)
    && (forall m: Membership :: QuietPair(run.sc, m.groupId, m.memberId) ==> (m in run.ms <==> m in run.w0.members))
  }

  /** The first n listed groups have their org tuples. */
  ghost predicate GroupsRepaired(run: Run, w: World, n: nat)
    requires n <= |run.gs|
  {
    forall k :: 0 <= k < n && QuietGroup(run.sc, run.gs[k].id) ==> OrgTupleOf(run.gs[k]) in w.tuples
  }

  /** A tuple that the admin read of one of the first n groups returns and keeps. */
  ghost predicate AdminOf(run: Run, t: TupleKey, n: nat)
    requires n <= |run.gs|
  {
    && t.relation == ADMIN_RELATION && ValidAdminUser(run.ids, t.user)
    && exists k :: 0 <= k < n && t.obj == GroupObject(run.gs[k].id)
  }

  ghost predicate AdminsFound(run: Run, admins: TupleSet, n: nat)
    requires n <= |run.gs|
  {
    && (forall t :: t in admins ==> AdminOf(run, t, n))
    && (forall t :: Quiet(run.sc, t) && AdminOf(run, t, n) ==> (t in admins <==> t in run.w0.tuples))
  }

  /** The first n listed memberships are settled, the others untouched. */
  ghost predicate MembersRepaired(run: Run, w: World, n: nat)
    requires n <= |run.ms|
  {
    && (forall k :: 0 <= k < n && QuietPair(run.sc, run.ms[k].groupId, run.ms[k].memberId) ==>
          if run.ms[k].memberId in run.ids then MembershipTuple(run.ms[k]) in w.tuples
          else run.ms[k] !in w.members && MembershipTuple(run.ms[k]) !in w.tuples)
    && (forall k :: n <= k < |run.ms| && QuietPair(run.sc, run.ms[k].groupId, run.ms[k].memberId) ==>
          run.ms[k] in w.members)
  }

  /** The memberships whose keys the run still holds. */
  ghost predicate KeptAfter(run: Run, kept: Memberships, n: nat)
    requires n <= |run.ms|
  {
    && (forall m :: m in kept ==> m in run.ms)
    && (forall k :: 0 <= k < |run.ms| && QuietPair(run.sc, run.ms[k].groupId, run.ms[k].memberId) ==>
          (run.ms[k] in kept <==> n <= k || run.ms[k].memberId in run.ids))
  }

  // ----- accounting, when nobody interferes ----------------------------------------------

  /** Written, deleted and removed so far are the sizes of the differences to the start. */
  ghost predicate Counts(run: Run, w: World, r: Report) {
    run.sc == ALONE ==>
      && r.groupsScanned == |run.w0.groups| && r.membershipsScanned == |run.w0.members|
      && r.tuplesWritten == |w.tuples - run.w0.tuples|
      && r.tuplesDeleted == |run.w0.tuples - w.tuples|
      && r.orphanedMembershipsRemoved == |run.w0.members - w.members|
  }

  ghost predicate Distinct<T(!new)>(s: seq<T>) {
    forall i, j :: 0 <= i < j < |s| ==> s[i] != s[j]
  }

  /** A request that a strict tuple store accepts and that only moves towards the goal. */
  ghost predicate GoodRequest(ids: set<Uuid>, w0: World, r: WriteRequest) {
    && |r.writes| + |r.deletes| > 0 && Distinct(r.writes) && Distinct(r.deletes)
    && (forall t :: t in r.writes ==> t !in r.before && InGoal(ids, w0, t))
    && (forall t :: t in r.deletes ==> t in r.before && !InGoal(ids, w0, t))
  }

  ghost predicate GoodRequests(run: Run, requests: seq<WriteRequest>) {
    run.sc == ALONE ==>
      && run.requests0 <= requests
      && (forall k :: |run.requests0| <= k < |requests| ==> GoodRequest(run.ids, run.w0, requests[k]))
      && (Settled(run.ids, run.w0) ==> requests == run.requests0)
  }

  ghost predicate IsRemovalOf(removed: Memberships, e: Event) {
    exists m :: m in removed && e == RemovedEvent(m)
  }

  ghost predicate HasRemoval(attempts: seq<Attempt>, m: Membership) {
    exists i :: 0 <= i < |attempts| && attempts[i].event == RemovedEvent(m)
  }

  /** Exactly one removal event per removed row, in some order. */
  ghost predicate PublishedExactly(log0: seq<Attempt>, log: seq<Attempt>, removed: Memberships) {
    && log0 <= log && |log| == |log0| + |removed|
    && (forall i :: |log0| <= i < |log| ==> IsRemovalOf(removed, log[i].event))
    && (forall m :: m in removed ==> HasRemoval(log[|log0|..], m))
  }

  ghost predicate Published(run: Run, w: World) {
    run.sc == ALONE ==> PublishedExactly(run.w0.log, w.log, run.w0.members - w.members)
  }

  /** Removed rows whose tuple is gone and whose removal was announced. */
  ghost predicate FollowedUp(run: Run, w: World, removed: Memberships) {
    PublishedExactly(run.w0.log, w.log, removed) && forall m :: m in removed ==> MembershipTuple(m) !in w.tuples
  }

  /** A run cut off anywhere leaves at most one row removed and not yet followed up. */
  ghost predicate CutOff(run: Run, w: World) {
    run.sc == ALONE ==>
      var removed := run.w0.members - w.members;
      FollowedUp(run, w, removed) || exists half :: half in removed && FollowedUp(run, w, removed - {half})
  }

  ghost predicate RemovalOfListed(run: Run, e: Event, j: nat)
    requires j <= |run.ms|
  {
    exists k :: 0 <= k < j && run.ms[k].memberId !in run.ids && e.MembershipRemoved?
                && e.groupId == run.ms[k].groupId && e.memberId == run.ms[k].memberId
  }

  predicate SamePair(a: Event, b: Event) {
    a.MembershipRemoved? && b.MembershipRemoved? && a.groupId == b.groupId && a.memberId == b.memberId
  }

  /** The attempts of this run, whoever else runs: one for each row it removed,
      each about a different listed orphan. */
  ghost predicate Announced(run: Run, log: seq<Attempt>, removed: int, j: nat)
    requires j <= |run.ms|
  {
    && run.w0.log <= log && |log| == |run.w0.log| + removed
    && (forall i :: |run.w0.log| <= i < |log| ==> RemovalOfListed(run, log[i].event, j))
    && (forall i, i' :: |run.w0.log| <= i < i' < |log| ==> !SamePair(log[i].event, log[i'].event))
  }

  /** What a run that stops early has announced. */
  ghost predicate AnnouncedSoFar(run: Run, log: seq<Attempt>) {
    Announced(run, log, |log| - |run.w0.log|, |run.ms|)
  }

  // ----- interference --------------------------------------------------------------------

  lemma RelyKeepsRepairs(run: Run, w: World, w': World, i: nat, j: nat)
    requires i <= |run.gs| && j <= |run.ms| && Rely(run.sc, w, w')
    ensures GroupsRepaired(run, w, i) ==> GroupsRepaired(run, w', i)
    ensures MembersRepaired(run, w, j) ==> MembersRepaired(run, w', j)
  {
    forall k | 0 <= k < i && QuietGroup(run.sc, run.gs[k].id)
      ensures OrgTupleOf(run.gs[k]) in w.tuples <==> OrgTupleOf(run.gs[k]) in w'.tuples {
      GroupTuplesQuiet(run.sc, run.gs[k].id, run.gs[k].organizationId);
    }
    forall k | 0 <= k < |run.ms| && QuietPair(run.sc, run.ms[k].groupId, run.ms[k].memberId)
      ensures MembershipTuple(run.ms[k]) in w.tuples <==> MembershipTuple(run.ms[k]) in w'.tuples
      ensures run.ms[k] in w.members <==> run.ms[k] in w'.members {
      MemberTupleQuiet(run.sc, run.ms[k].groupId, run.ms[k].memberId);
    }
  }

  lemma RelyKeepsAccounts(run: Run, w: World, w': World, r: Report)
    requires Rely(run.sc, w, w') && w'.log == w.log
    ensures Counts(run, w, r) ==> Counts(run, w', r)
    ensures Published(run, w) ==> Published(run, w')
  {
    if run.sc == ALONE {
      AloneMeansUnchanged(w, w');
    }
  }

  // ----- the goal at the tuples the run writes ----------------------------------------------

  lemma ListedOrgTupleInGoal(run: Run, k: nat)
    requires SnapshotOf(run) && k < |run.gs| && Quiet(run.sc, OrgTupleOf(run.gs[k]))
    ensures InGoal(run.ids, run.w0, OrgTupleOf(run.gs[k]))
  {
    var g := run.gs[k];
    GroupTuplesQuiet(run.sc, g.id, g.organizationId);
    GroupObjectReadBack(g.id);
  }

  /** The member tuple of a quiet pair is in the goal exactly when its row is live. */
  lemma MemberTupleGoal(run: Run, m: Membership)
    requires ValidWorld(run.w0) && m in run.w0.members
    ensures InGoal(run.ids, run.w0, MembershipTuple(m)) <==> m.memberId in run.ids
  {
    TuplesInjective();
    if m.memberId in run.ids {
      assert m in Live(run.ids, run.w0.members);
    }
    if MemberBacked(Live(run.ids, run.w0.members), MembershipTuple(m)) {
      var x :| x in Live(run.ids, run.w0.members) && MembershipTuple(m) == MembershipTuple(x);
      assert x.memberId == m.memberId;
    }
  }

  // ----- the group loop ------------------------------------------------------------------------

  function WithTuple(w: World, t: TupleKey): World {
    w.(tuples := w.tuples + {t})
  }

  function WithoutTuple(w: World, t: TupleKey): World {
    w.(tuples := w.tuples - {t})
  }

  lemma OrgTupleRepaired(run: Run, w: World, i: nat)
    requires SnapshotOf(run) && i < |run.gs| && Underway(run, w) && GroupsRepaired(run, w, i)
    ensures Underway(run, WithTuple(w, OrgTupleOf(run.gs[i])))
    ensures GroupsRepaired(run, WithTuple(w, OrgTupleOf(run.gs[i])), i + 1)
  {
    if Quiet(run.sc, OrgTupleOf(run.gs[i])) {
      ListedOrgTupleInGoal(run, i);
    }
    AddingKeepsProgress(run.sc, run.ids, run.w0, w, OrgTupleOf(run.gs[i]));
  }

  /** Admin tuples that a run may rely on are the ones it started with. */
  lemma AdminUnchanged(run: Run, w: World, t: TupleKey, n: nat)
    requires SnapshotOf(run) && Underway(run, w) && n <= |run.gs|
    requires Quiet(run.sc, t) && AdminOf(run, t, n)
    ensures t in w.tuples <==> t in run.w0.tuples
    ensures IsManagedGroupTuple(t) && AdminBacked(run.ids, run.w0.groups, t)
  {
    var k :| 0 <= k < n && t.obj == GroupObject(run.gs[k].id);
    GroupObjectReadBack(run.gs[k].id);
    assert QuietGroup(run.sc, run.gs[k].id);
  }

  /** What the read for group i adds to the admins found so far. */
  lemma AdminsOfOneMore(run: Run, w: World, admins: TupleSet, i: nat, found: TupleSet)
    requires SnapshotOf(run) && Underway(run, w) && i < |run.gs| && AdminsFound(run, admins, i)
    requires forall t :: t in found ==>
               t.relation == ADMIN_RELATION && t.obj == GroupObject(run.gs[i].id) && ValidAdminUser(run.ids, t.user)
    requires forall t :: (Quiet(run.sc, t) && t.relation == ADMIN_RELATION && t.obj == GroupObject(run.gs[i].id)
                          && ValidAdminUser(run.ids, t.user)) ==> (t in found <==> t in w.tuples)
    ensures AdminsFound(run, admins + found, i + 1)
  {
    hide ToText, Parse;
    forall t | t in admins + found ensures AdminOf(run, t, i + 1) {
      if t in admins {
        assert AdminOf(run, t, i);
      }
    }
    forall t | Quiet(run.sc, t) && AdminOf(run, t, i + 1) ensures t in admins + found <==> t in run.w0.tuples {
      AdminUnchanged(run, w, t, i + 1);
      if t in admins {
        assert AdminOf(run, t, i);
      }
    }
  }

  // ----- the membership loop ---------------------------------------------------------------------

  lemma LiveTupleWritten(run: Run, w: World, j: nat)
    requires ValidWorld(run.w0) && SnapshotOf(run) && Underway(run, w)
    requires j < |run.ms| && run.ms[j].memberId in run.ids && GroupsRepaired(run, w, |run.gs|)
    ensures var w' := WithTuple(w, MembershipTuple(run.ms[j]));
            Underway(run, w') && GroupsRepaired(run, w', |run.gs|)
    ensures Quiet(run.sc, MembershipTuple(run.ms[j])) ==> InGoal(run.ids, run.w0, MembershipTuple(run.ms[j]))
  {
    hide ToText, Parse;
    var m := run.ms[j];
    MemberTupleQuiet(run.sc, m.groupId, m.memberId);
    if QuietPair(run.sc, m.groupId, m.memberId) {
      MemberTupleGoal(run, m);
    }
    hide InGoal, Progressed, ValidWorld;
    AddingKeepsProgress(run.sc, run.ids, run.w0, w, MembershipTuple(m));
    hide MembershipTuple, GroupOrgTuple, SnapshotOf;
  }

  lemma LiveSettled(run: Run, w: World, j: nat)
    requires SnapshotOf(run) && j < |run.ms| && run.ms[j].memberId in run.ids && MembersRepaired(run, w, j)
    ensures MembersRepaired(run, WithTuple(w, MembershipTuple(run.ms[j])), j + 1)
  {
    hide ToText, Parse;
    MembershipTuplesInjective();
    hide MembershipTuple;
  }

  lemma LiveMemberRepaired(run: Run, w: World, j: nat)
    requires ValidWorld(run.w0) && SnapshotOf(run) && Underway(run, w)
    requires j < |run.ms| && run.ms[j].memberId in run.ids
    requires GroupsRepaired(run, w, |run.gs|) && MembersRepaired(run, w, j)
    ensures var w' := WithTuple(w, MembershipTuple(run.ms[j]));
            Underway(run, w') && GroupsRepaired(run, w', |run.gs|) && MembersRepaired(run, w', j + 1)
  {
    hide Progressed, GroupsRepaired, MembersRepaired, MembershipTuple, WithTuple;
    LiveTupleWritten(run, w, j);
    LiveSettled(run, w, j);
  }

  lemma OrphanRowDropped(run: Run, w: World, j: nat)
    requires Underway(run, w) && j < |run.ms| && run.ms[j].memberId !in run.ids
    requires GroupsRepaired(run, w, |run.gs|)
    ensures var w' := w.(members := WithoutMember(w.members, run.ms[j].groupId, run.ms[j].memberId));
            Underway(run, w') && GroupsRepaired(run, w', |run.gs|)
  {
  }

  /** No row that the run may rely on calls for this tuple any more. */
  ghost predicate RowGone(run: Run, w: World, t: TupleKey) {
    forall m: Membership :: m in w.members && QuietPair(run.sc, m.groupId, m.memberId) ==> MembershipTuple(m) != t
  }

  lemma RelyKeepsRowGone(run: Run, w: World, w': World, t: TupleKey)
    requires RowGone(run, w, t) && Rely(run.sc, w, w')
    ensures RowGone(run, w', t)
  {
  }

  lemma RemovedRowGone(run: Run, w: World, m: Membership)
    ensures RowGone(run, w.(members := WithoutMember(w.members, m.groupId, m.memberId)), MembershipTuple(m))
  {
    MembershipTuplesInjective();
  }

  lemma OrphanTupleDropped(run: Run, w: World, j: nat)
    requires ValidWorld(run.w0) && SnapshotOf(run) && Underway(run, w)
    requires j < |run.ms| && run.ms[j].memberId !in run.ids && GroupsRepaired(run, w, |run.gs|)
    requires RowGone(run, w, MembershipTuple(run.ms[j]))
    ensures var w' := WithoutTuple(w, MembershipTuple(run.ms[j]));
            Underway(run, w') && GroupsRepaired(run, w', |run.gs|)
  {
    hide ToText, Parse;
    var m := run.ms[j];
    MemberTupleQuiet(run.sc, m.groupId, m.memberId);
    if QuietPair(run.sc, m.groupId, m.memberId) {
      MemberTupleGoal(run, m);
    }
    DeletingKeepsProgress(run.sc, run.ids, run.w0, w, {MembershipTuple(m)});
    OrgIsNoMemberTuple();
    hide MembershipTuple, GroupOrgTuple, Progressed, ValidWorld, SnapshotOf;
  }

  lemma OrphanSettled(run: Run, w: World, j: nat)
    requires SnapshotOf(run) && j < |run.ms| && run.ms[j].memberId !in run.ids && MembersRepaired(run, w, j)
    ensures var m := run.ms[j];
            var w' := WithoutTuple(w.(members := WithoutMember(w.members, m.groupId, m.memberId)), MembershipTuple(m));
            MembersRepaired(run, w', j + 1)
  {
    hide ToText, Parse;
    MembershipTuplesInjective();
    hide MembershipTuple;
  }

  /** Row and tuple of an orphan both gone. */
  lemma OrphanRepaired(run: Run, w: World, j: nat)
    requires ValidWorld(run.w0) && SnapshotOf(run) && Underway(run, w)
    requires j < |run.ms| && run.ms[j].memberId !in run.ids
    requires GroupsRepaired(run, w, |run.gs|) && MembersRepaired(run, w, j)
    ensures var m := run.ms[j];
            var w' := WithoutTuple(w.(members := WithoutMember(w.members, m.groupId, m.memberId)), MembershipTuple(m));
            Underway(run, w') && GroupsRepaired(run, w', |run.gs|) && MembersRepaired(run, w', j + 1)
  {
    hide ToText, Parse;
    var m := run.ms[j];
    OrphanSettled(run, w, j);
    OrphanRowDropped(run, w, j);
    RemovedRowGone(run, w, m);
    OrphanTupleDropped(run, w.(members := WithoutMember(w.members, m.groupId, m.memberId)), j);
    hide Progressed, MembersRepaired, GroupsRepaired, WithoutTuple, WithoutMember;
  }

  lemma KeptAfterOrphan(run: Run, kept: Memberships, j: nat)
    requires SnapshotOf(run) && j < |run.ms| && run.ms[j].memberId !in run.ids && KeptAfter(run, kept, j)
    ensures KeptAfter(run, WithoutMember(kept, run.ms[j].groupId, run.ms[j].memberId), j + 1)
  {
  }

  lemma KeptAfterLive(run: Run, kept: Memberships, j: nat)
    requires j < |run.ms| && run.ms[j].memberId in run.ids && KeptAfter(run, kept, j)
    ensures KeptAfter(run, kept, j + 1)
  {
  }

  // ----- the sweep -----------------------------------------------------------------------------------

  /** Backed by what the run holds: the code's test, on tuples instead of key strings. */
  ghost predicate HeldBacked(run: Run, kept: Memberships, admins: TupleSet, t: TupleKey) {
    if t.relation == ORG_RELATION then
      match ParseGroupObject(t.obj)
      case Some(g) => exists k :: 0 <= k < |run.gs| && run.gs[k].id == g
                               && t.user == OrganizationObject(run.gs[k].organizationId)
      case None => false
    else if t.relation == MEMBER_RELATION then MemberBacked(kept, t)
    else
      && t in admins
      && match ParseGroupObject(t.obj)
         case Some(g) => exists k :: 0 <= k < |run.gs| && run.gs[k].id == g
         case None => false
  }

  lemma HeldOrgBacked(run: Run, t: TupleKey, kept: Memberships, admins: TupleSet)
    requires ValidWorld(run.w0) && SnapshotOf(run) && Quiet(run.sc, t) && t.relation == ORG_RELATION
    ensures HeldBacked(run, kept, admins, t) <==> OrgBacked(run.w0.groups, t)
  {
  }

  lemma HeldMemberBacked(run: Run, t: TupleKey, kept: Memberships)
    requires SnapshotOf(run) && KeptAfter(run, kept, |run.ms|)
    requires Quiet(run.sc, t) && t.relation == MEMBER_RELATION
    ensures MemberBacked(kept, t) <==> MemberBacked(Live(run.ids, run.w0.members), t)
  {
    hide ToText, Parse;
    if m :| m in kept && t == MembershipTuple(m) {
      MemberTupleQuiet(run.sc, m.groupId, m.memberId);
      var k :| 0 <= k < |run.ms| && run.ms[k] == m;
      assert m in Live(run.ids, run.w0.members);
    }
    if m :| m in Live(run.ids, run.w0.members) && t == MembershipTuple(m) {
      MemberTupleQuiet(run.sc, m.groupId, m.memberId);
      var k :| 0 <= k < |run.ms| && run.ms[k] == m;
      assert m in kept;
    }
  }

  lemma AdminOfIsBacked(run: Run, t: TupleKey)
    requires ValidWorld(run.w0) && SnapshotOf(run) && Quiet(run.sc, t) && t.relation == ADMIN_RELATION
    ensures AdminOf(run, t, |run.gs|) <==> AdminBacked(run.ids, run.w0.groups, t)
  {
    hide ToText, Parse;
    if AdminOf(run, t, |run.gs|) {
      var k :| 0 <= k < |run.gs| && t.obj == GroupObject(run.gs[k].id);
      GroupObjectReadBack(run.gs[k].id);
    }
    if AdminBacked(run.ids, run.w0.groups, t) {
      var g := ParseGroupObject(t.obj).value;
      var k :| 0 <= k < |run.gs| && run.gs[k] == run.w0.groups[g];
    }
  }

  lemma HeldAdminBacked(run: Run, t: TupleKey, kept: Memberships, admins: TupleSet)
    requires ValidWorld(run.w0) && SnapshotOf(run) && AdminsFound(run, admins, |run.gs|)
    requires Quiet(run.sc, t) && t.relation == ADMIN_RELATION
    ensures HeldBacked(run, kept, admins, t)
       <==> t in run.w0.tuples && AdminBacked(run.ids, run.w0.groups, t)
  {
    hide ToText, Parse;
    AdminOfIsBacked(run, t);
    if t in admins {
      var k :| 0 <= k < |run.gs| && t.obj == GroupObject(run.gs[k].id);
      GroupObjectReadBack(run.gs[k].id);
    }
  }

  ghost predicate Repaired(run: Run, w: World, kept: Memberships, admins: TupleSet) {
    && ValidWorld(run.w0) && SnapshotOf(run) && Underway(run, w)
    && GroupsRepaired(run, w, |run.gs|) && MembersRepaired(run, w, |run.ms|)
    && AdminsFound(run, admins, |run.gs|) && KeptAfter(run, kept, |run.ms|)
  }

  /** After both loops, a quiet org tuple of the goal is there. */
  lemma RepairedOrg(run: Run, w: World, kept: Memberships, admins: TupleSet, t: TupleKey)
    requires Repaired(run, w, kept, admins) && Quiet(run.sc, t) && IsManagedGroupTuple(t)
    requires t.relation == ORG_RELATION
    ensures t in w.tuples && HeldBacked(run, kept, admins, t) <==> InGoal(run.ids, run.w0, t)
  {
    hide ToText, Parse;
    HeldOrgBacked(run, t, kept, admins);
    if OrgBacked(run.w0.groups, t) && CanonicalObject(t) {
      var g := ParseGroupObject(t.obj).value;
      var k :| 0 <= k < |run.gs| && run.gs[k] == run.w0.groups[g];
      assert t == OrgTupleOf(run.gs[k]);
    }
  }

  lemma RepairedMember(run: Run, w: World, kept: Memberships, admins: TupleSet, t: TupleKey)
    requires Repaired(run, w, kept, admins) && Quiet(run.sc, t) && IsManagedGroupTuple(t)
    requires t.relation == MEMBER_RELATION
    ensures t in w.tuples && HeldBacked(run, kept, admins, t) <==> InGoal(run.ids, run.w0, t)
  {
    hide ToText, Parse;
    HeldMemberBacked(run, t, kept);
    if m :| m in Live(run.ids, run.w0.members) && t == MembershipTuple(m) {
      MemberTupleQuiet(run.sc, m.groupId, m.memberId);
      var k :| 0 <= k < |run.ms| && run.ms[k] == m;
      assert t in w.tuples;
    }
  }

  lemma RepairedAdmin(run: Run, w: World, kept: Memberships, admins: TupleSet, t: TupleKey)
    requires Repaired(run, w, kept, admins) && Quiet(run.sc, t) && IsManagedGroupTuple(t)
    requires t.relation == ADMIN_RELATION
    ensures t in w.tuples && HeldBacked(run, kept, admins, t) <==> InGoal(run.ids, run.w0, t)
  {
    hide ToText, Parse;
    HeldAdminBacked(run, t, kept, admins);
    AdminOfIsBacked(run, t);
    if AdminOf(run, t, |run.gs|) {
      AdminUnchanged(run, w, t, |run.gs|);
    }
  }

  /** The sweep keeps, of the quiet tuples it finds, exactly the goal. */
  lemma SweepExact(run: Run, w: World, kept: Memberships, admins: TupleSet, t: TupleKey)
    requires Repaired(run, w, kept, admins) && Quiet(run.sc, t)
    ensures t in w.tuples && (IsManagedGroupTuple(t) ==> HeldBacked(run, kept, admins, t))
       <==> InGoal(run.ids, run.w0, t)
  {
    hide ToText, Parse;
    if IsManagedGroupTuple(t) {
      if t.relation == ORG_RELATION {
        RepairedOrg(run, w, kept, admins, t);
      } else if t.relation == MEMBER_RELATION {
        RepairedMember(run, w, kept, admins, t);
      } else {
        RepairedAdmin(run, w, kept, admins, t);
      }
    }
  }

  /** The rows that remain are live, and the goal has the tuples of live rows. */
  lemma LiveRowsKeepTuples(run: Run, w': World)
    requires ValidWorld(run.w0) && SnapshotOf(run)
    requires forall t :: Quiet(run.sc, t) ==> (t in w'.tuples <==> InGoal(run.ids, run.w0, t))
    requires forall m: Membership :: QuietPair(run.sc, m.groupId, m.memberId) ==>
               (m in w'.members <==> m in Live(run.ids, run.w0.members))
    ensures RowsKeepTuples(run.sc, run.w0, w')
  {
    hide ToText, Parse;
    forall m: Membership | m in w'.members && QuietPair(run.sc, m.groupId, m.memberId)
      ensures MembershipTuple(m) in w'.tuples {
      MemberTupleQuiet(run.sc, m.groupId, m.memberId);
      MemberTupleGoal(run, m);
    }
  }

  lemma SweepConverges(run: Run, w: World, kept: Memberships, admins: TupleSet, deletes: TupleSet)
    requires Repaired(run, w, kept, admins)
    requires forall t :: Quiet(run.sc, t) ==>
               (t in deletes <==> t in w.tuples && IsManagedGroupTuple(t) && !HeldBacked(run, kept, admins, t))
    ensures Converged(run.sc, run.ids, run.w0, w.(tuples := w.tuples - deletes))
  {
    hide ToText, Parse;
    var w' := w.(tuples := w.tuples - deletes);
    forall t | Quiet(run.sc, t) ensures t in w'.tuples <==> InGoal(run.ids, run.w0, t) {
      SweepExact(run, w, kept, admins, t);
    }
    forall m: Membership | QuietPair(run.sc, m.groupId, m.memberId)
      ensures m in w'.members <==> m in Live(run.ids, run.w0.members) {
      if m in run.ms {
        var k :| 0 <= k < |run.ms| && run.ms[k] == m;
      }
    }
    hide InGoal, HeldBacked, IsManagedGroupTuple;
    LiveRowsKeepTuples(run, w');
  }
}
