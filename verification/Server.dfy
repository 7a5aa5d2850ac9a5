/** internal/server: reconciliation.go, and the handlers of groups.go and memberships.go. */
module Server {
  import opened Wrappers
  import opened Uuids
  import opened Schema
  import opened Tuples
  import opened Worlds
  import opened Goal
  import opened Progress
  import opened Reconciling
  import opened RunSteps
  import opened ReconciliationStates
  import opened Clients
  import opened Store
  import opened Sagas
  import opened Pagination
  import opened Keyset
  import opened Query

  const RECONCILIATION_PAGE_SIZE := 100

  datatype ReconcileResult = Completed(report: Report) | Failed | Panicked

  class Server {
    const store: Store
    const authz: AuthorizationClient
    const identity: IdentityClient
    const publisher: Publisher

    constructor (store: Store, authz: AuthorizationClient, identity: IdentityClient, publisher: Publisher)
      ensures this.store == store && this.authz == authz && this.identity == identity && this.publisher == publisher
    {
      this.store, this.authz, this.identity, this.publisher := store, authz, identity, publisher;
    }

    ghost predicate Valid()
      reads this, store`groups, store`members
    {
      store.Valid()
    }

    ghost function State(): World
      reads this, store`groups, store`members, authz`tuples, publisher
    {
      World(store.groups, store.members, authz.tuples, publisher.log)
    }

    /** How many calls of this server the services have failed so far. */
    ghost function Faults(): nat
      reads this, store`calls, authz`calls, identity
    {
      FaultsIn(store.calls) + FaultsIn(authz.calls) + FaultsIn(identity.calls)
    }

    ghost function Calls(): CallLog
      reads this, store`calls, authz`calls, authz`checks, identity
    {
      CallLog(store.calls, authz.calls, identity.calls, authz.checks)
    }

    /** Other handlers may run between any two calls of a reconciliation; their own
        calls and publish attempts are not among those recorded here. */
    method Interfere(ghost sc: Scope)
      requires Valid()
      modifies store`groups, store`members, authz`tuples
      ensures Valid() && Rely(sc, old(State()), State())
    {
    }

    method ReadTuples(filter: TupleKey, ghost sc: Scope) returns (ok: bool, tuples: seq<TupleKey>)
      requires Valid()
      modifies store`groups, store`members, store`calls, authz`tuples, authz`calls, identity
      ensures Valid() && Rely(sc, old(State()), State())
      ensures Faults() == old(Faults()) + if ok then 0 else 1
      ensures ok ==> Distinct(tuples) && forall t :: t in tuples ==> TupleMatches(filter, t)
      ensures ok ==> forall t :: Quiet(sc, t) && TupleMatches(filter, t) ==> (t in tuples <==> t in old(authz.tuples))
    {
      hide ToText, Parse, Rely, Quiet, Lists, Matching, TupleMatches, Distinct, ValidTables;
      EveryCallCounts();
      hide FaultsIn;
      Interfere(sc);
      ghost var found := State();
      var page, next;
      ok, page, next := authz.Read(filter, RECONCILIATION_PAGE_SIZE, None);
      if !ok {
        return false, [];
      }
      tuples := page;
      while next.Some?
        invariant Valid() && Rely(sc, old(State()), State())
        invariant Lists(tuples + Left(next), Matching(found.tuples, filter))
        invariant ok && Faults() == old(Faults())
        decreases next.Some?, |Left(next)|
      {
        ghost var before, w := tuples + Left(next), State();
        Interfere(sc);
        RelyTransitive(sc, old(State()), w, State());
        ok, page, next := authz.Read(filter, RECONCILIATION_PAGE_SIZE, next);
        if !ok {
          return false, [];
        }
        tuples := tuples + page;
        assert tuples + Left(next) == before;
      }
      assert tuples + Left(next) == tuples;
      SnapshotRead(sc, old(State()), found, filter, tuples);
    }

    method TupleExists(t: TupleKey, ghost sc: Scope) returns (ok: bool, exists': bool)
      requires Valid() && NoBars(t)
      modifies store`groups, store`members, store`calls, authz`tuples, authz`calls, identity
      ensures Valid() && Rely(sc, old(State()), State())
      ensures Faults() == old(Faults()) + if ok then 0 else 1
      ensures ok && Quiet(sc, t) ==> (exists' <==> t in old(authz.tuples))
    {
      hide ToText, Parse;
      var tuples;
      ok, tuples := ReadTuples(t, sc);
      if !ok {
        return false, false;
      }
      var i := 0;
      while i < |tuples|
        invariant 0 <= i <= |tuples|
        invariant t !in tuples[..i] && Faults() == old(Faults())
      {
        if TupleKeyString(tuples[i]) == TupleKeyString(t) {
          KeyStringExact(t, tuples[i]);
          return true, true;
        }
        i := i + 1;
      }
      exists' := false;
    }

    method IdentityExists(id: Uuid, ghost sc: Scope) returns (ok: bool, exists': bool)
      requires Valid()
      modifies store`groups, store`members, store`calls, authz`tuples, authz`calls, identity
      ensures Valid() && Rely(sc, old(State()), State())
      ensures Faults() == old(Faults()) + if ok then 0 else 1
      ensures ok ==> (exists' <==> id in identity.types)
    {
      EveryCallCounts();
      hide FaultsIn;
      Interfere(sc);
      var r := identity.GetIdentityType(id);
      if r.Success? {
        return true, true;
      }
      if r.error == NotFound {
        return true, false;
      }
      ok, exists' := false, false;
    }

    method EnsureTuple(t: TupleKey, ghost run: Run, ghost r: Report) returns (ok: bool, written: bool)
      requires Valid() && NoBars(t)
      requires Going(run, State(), authz.requests, r)
      requires Quiet(run.sc, t) ==> InGoal(run.ids, run.w0, t)
      modifies store`groups, store`members, store`calls, authz, identity
      ensures Valid() && Underway(run, State()) && GoodRequests(run, authz.requests)
      ensures Faults() == old(Faults()) + if ok then 0 else 1
      ensures ok ==> Rely(run.sc, WithTuple(old(State()), t), State())
      ensures ok ==> Going(run, State(), authz.requests,
                           if written then r.(tuplesWritten := r.tuplesWritten + 1) else r)
      ensures !ok ==> Rely(run.sc, old(State()), State()) || Rely(run.sc, WithTuple(old(State()), t), State())
    {
      EveryCallCounts();
      hide FaultsIn, Rely, Progressed, InGoal, Quiet, Counts, GoodRequests, NoBars;
      var exists';
      ok, exists' := TupleExists(t, run.sc);
      RelyKeepsGoing(run, old(State()), State(), authz.requests, r);
      if !ok {
        return false, false;
      }
      if exists' {
        FoundTuple(run, old(State()), State(), t);
        return true, false;
      }
      label beforeWrite:
      Interfere(run.sc);
      RelyTransitive(run.sc, old(State()), old@beforeWrite(State()), State());
      RelyKeepsGoing(run, old@beforeWrite(State()), State(), authz.requests, r);
      ghost var w, requests := State(), authz.requests;
      ghost var o;
      ok, o := authz.Write([t], []);
      written := true;
      AloneUnchanged(run.sc, old(State()), w, t);
      WrittenTuple(run, w, t, requests, r);
      WriteUnderRely(run, old(State()), w, t);
      assert SetOf([t]) == {t} && SetOf([]) == {};
      assert GoodRequests(run, authz.requests);
      assert State() == if o.Refused? then w else WithTuple(w, t);
    }

    method DeleteTupleIfPresent(t: TupleKey, ghost run: Run, ghost r: Report) returns (ok: bool, deleted: bool)
      requires Valid() && NoBars(t)
      requires Going(run, State(), authz.requests, r)
      requires (Quiet(run.sc, t) ==> !InGoal(run.ids, run.w0, t)) && RowGone(run, State(), t)
      modifies store`groups, store`members, store`calls, authz, identity
      ensures Valid() && Underway(run, State()) && GoodRequests(run, authz.requests)
      ensures Faults() == old(Faults()) + if ok then 0 else 1
      ensures ok ==> Rely(run.sc, WithoutTuple(old(State()), t), State())
      ensures ok ==> Going(run, State(), authz.requests,
                           if deleted then r.(tuplesDeleted := r.tuplesDeleted + 1) else r)
      ensures !ok ==> Rely(run.sc, old(State()), State()) || Rely(run.sc, WithoutTuple(old(State()), t), State())
    {
      EveryCallCounts();
      hide FaultsIn, Rely, Progressed, InGoal, Quiet, Counts, GoodRequests, NoBars, RowGone;
      var exists';
      ok, exists' := TupleExists(t, run.sc);
      RelyKeepsGoing(run, old(State()), State(), authz.requests, r);
      if !ok {
        return false, false;
      }
      if !exists' {
        MissedTuple(run, old(State()), State(), t);
        return true, false;
      }
      label beforeWrite:
      Interfere(run.sc);
      RelyTransitive(run.sc, old(State()), old@beforeWrite(State()), State());
      RelyKeepsGoing(run, old@beforeWrite(State()), State(), authz.requests, r);
      ghost var w, requests := State(), authz.requests;
      RelyKeepsRowGone(run, old(State()), w, t);
      ghost var o;
      ok, o := authz.Write([], [t]);
      deleted := true;
      AloneUnchanged(run.sc, old(State()), w, t);
      DeletedTuple(run, w, t, requests, r);
      WriteUnderRely(run, old(State()), w, t);
      assert SetOf([t]) == {t} && SetOf([]) == {};
      assert GoodRequests(run, authz.requests);
      assert State() == if o.Refused? then w else WithoutTuple(w, t);
    }

    /** The admin tuples of a group whose user is an identity that exists. */
    method ReadValidGroupAdmins(groupId: Uuid, ghost sc: Scope) returns (ok: bool, admins: seq<TupleKey>)
      requires Valid()
      modifies store`groups, store`members, store`calls, authz`tuples, authz`calls, identity
      ensures Valid() && Rely(sc, old(State()), State())
      ensures Faults() == old(Faults()) + if ok then 0 else 1
      ensures ok ==> forall t :: t in admins ==>
                t.relation == ADMIN_RELATION && t.obj == GroupObject(groupId)
                && ValidAdminUser(identity.types.Keys, t.user)
      ensures ok ==> forall t :: (Quiet(sc, t) && t.relation == ADMIN_RELATION && t.obj == GroupObject(groupId)
                                  && ValidAdminUser(identity.types.Keys, t.user)) ==>
                (t in admins <==> t in old(authz.tuples))
    {
      hide ToText, Parse, Rely, Quiet, FaultsIn;
      var filter := TupleKey("", ADMIN_RELATION, GroupObject(groupId));
      var tuples;
      ok, tuples := ReadTuples(filter, sc);
      if !ok {
        return false, [];
      }
      assert forall t :: TupleMatches(filter, t) <==> t.relation == ADMIN_RELATION && t.obj == GroupObject(groupId);
      admins := [];
      var i := 0;
      while i < |tuples|
        invariant 0 <= i <= |tuples| && ok
        invariant Valid() && Rely(sc, old(State()), State()) && Faults() == old(Faults())
        invariant forall t :: t in admins <==> t in tuples[..i] && ValidAdminUser(identity.types.Keys, t.user)
      {
        var adminId := ParseIdentityObject(tuples[i].user);
        if adminId.Some? {
          label beforeLookup:
          var exists';
          ok, exists' := IdentityExists(adminId.value, sc);
          RelyTransitive(sc, old(State()), old@beforeLookup(State()), State());
          if !ok {
            return false, [];
          }
          if exists' {
            admins := admins + [tuples[i]];
          }
        }
        i := i + 1;
      }
      assert tuples[..|tuples|] == tuples;
    }

    /** The first loop: org tuples written, admin tuples remembered. */
    method RepairGroups(groups: seq<Group>, state: ReconciliationState, report: Report, ghost run: Run)
      returns (ok: bool, report': Report)
      requires Valid() && state.Valid() && state.adminTuples == {}
      requires run.gs == groups && run.ids == identity.types.Keys && SnapshotOf(run)
      requires GroupLoop(run, State(), authz.requests, report, 0) && AdminsFound(run, {}, 0)
      modifies store`groups, store`members, store`calls, authz, identity, state`admins, state`adminTuples
      ensures Valid() && state.Valid()
      ensures Faults() == old(Faults()) + if ok then 0 else 1
      ensures report'.orphanedMembershipsRemoved == report.orphanedMembershipsRemoved
      ensures ok ==> GroupLoop(run, State(), authz.requests, report', |run.gs|)
                     && AdminsFound(run, state.adminTuples, |run.gs|)
      ensures !ok ==> Stopped(run, State(), authz.requests)
    {
      hide Rely, Progressed, InGoal, Quiet, Counts, GoodRequests, GroupsRepaired, MembersRepaired, Published,
           SnapshotOf, AdminsFound, CutOff, OrgTupleOf, AdminShaped, ToText, Parse;
      report' := report;
      var i := 0;
      while i < |groups|
        invariant 0 <= i <= |groups|
        invariant Valid() && state.Valid()
        invariant GroupLoop(run, State(), authz.requests, report', i) && AdminsFound(run, state.adminTuples, i)
        invariant report'.orphanedMembershipsRemoved == report.orphanedMembershipsRemoved
        invariant Faults() == old(Faults())
      {
        ok, report' := RepairGroup(groups[i], state, report', run, i);
        if !ok {
          return;
        }
        i := i + 1;
      }
      ok := true;
    }

    method RepairGroup(group: Group, state: ReconciliationState, report: Report, ghost run: Run, ghost i: nat)
      returns (ok: bool, report': Report)
      requires Valid() && state.Valid()
      requires i < |run.gs| && run.gs[i] == group && run.ids == identity.types.Keys && SnapshotOf(run)
      requires GroupLoop(run, State(), authz.requests, report, i) && AdminsFound(run, state.adminTuples, i)
      modifies store`groups, store`members, store`calls, authz, identity, state`admins, state`adminTuples
      ensures Valid() && state.Valid()
      ensures Faults() == old(Faults()) + if ok then 0 else 1
      ensures report'.orphanedMembershipsRemoved == report.orphanedMembershipsRemoved
      ensures ok ==> GroupLoop(run, State(), authz.requests, report', i + 1)
                     && AdminsFound(run, state.adminTuples, i + 1)
      ensures !ok ==> Stopped(run, State(), authz.requests)
    {
      hide Rely, Progressed, InGoal, Quiet, Counts, GoodRequests, GroupsRepaired, MembersRepaired, Published,
           SnapshotOf, AdminsFound, CutOff, AdminShaped, ToText, Parse;
      report' := report;
      var t := GroupOrgTuple(group.id, group.organizationId);
      ConstructedTuplesHaveNoBars(group.id, group.organizationId);
      OrgTupleGoal(run, i);
      assert t == OrgTupleOf(group);
      hide OrgTupleOf, GroupOrgTuple, NoBars;
      var written;
      ok, written := EnsureTuple(t, run, report);
      if !ok {
        CutOffInGroups(run, old(State()), State(), old(authz.requests), report, i, t);
        return;
      }
      report' := if written then report.(tuplesWritten := report.tuplesWritten + 1) else report;
      GroupStep(run, old(State()), State(), old(authz.requests), report, authz.requests, report', i);
      label beforeRead:
      var admins;
      ok, admins := ReadValidGroupAdmins(group.id, run.sc);
      RelyKeepsGroupLoop(run, old@beforeRead(State()), State(), authz.requests, report', i + 1);
      if !ok {
        GroupLoopStopped(run, State(), authz.requests, report', i + 1);
        return;
      }
      AdminsOfOneMore(run, old@beforeRead(State()), state.adminTuples, i, SetOf(admins));
      AdminsAreShaped(admins, group.id, run.ids);
      state.AddAdmins(admins);
    }

    /** The orphan branch of the second loop: row, held key, tuple, event. */
    method RemoveOrphan(m: Membership, state: ReconciliationState, report: Report, ghost run: Run, ghost j: nat)
      returns (ok: bool, report': Report)
      requires Valid() && state.Valid() && ValidWorld(run.w0)
      requires j < |run.ms| && run.ms[j] == m && m.memberId !in run.ids && SnapshotOf(run)
      requires MemberLoop(run, State(), authz.requests, report, j) && KeptAfter(run, state.kept, j)
      requires Announced(run, publisher.log, report.orphanedMembershipsRemoved, j)
      modifies store`groups, store`members, store`calls, authz, identity, publisher, state`memberships, state`kept
      ensures Valid() && state.Valid()
      ensures Faults() == old(Faults()) + if ok then 0 else 1
      ensures ok ==> MemberLoop(run, State(), authz.requests, report', j + 1) && KeptAfter(run, state.kept, j + 1)
      ensures ok ==> Announced(run, publisher.log, report'.orphanedMembershipsRemoved, j + 1)
      ensures !ok ==> publisher.log == old(publisher.log)
      ensures !ok ==> Stopped(run, State(), authz.requests)
    {
      hide Rely, Progressed, InGoal, Quiet, Counts, GoodRequests, GroupsRepaired, MembersRepaired, Published,
           SnapshotOf, KeptAfter, CutOff, ToText, Parse, ValidTables, NoBars, Announced;
      EveryCallCounts();
      hide FaultsIn;
      AnnouncedLater(run, publisher.log, report.orphanedMembershipsRemoved, j, j + 1);
      report' := report;
      Interfere(run.sc);
      RelyKeepsMemberLoop(run, old(State()), State(), authz.requests, report, j);
      ghost var w, requests := State(), authz.requests;
      StoppedAtRemoval(run, w, requests, report, j);
      MemberLoopFollowedUp(run, w, requests, report, j);
      var removed;
      ghost var o;
      removed, o := store.RemoveMember(m.groupId, m.memberId);
      assert State() == if o.Refused? then w else RowRemoved(run, w, j);
      if removed.Failure? {
        return false, report;
      }
      if removed.value.None? {
        OrphanSkipped(run, w, requests, report, j, state.kept);
        assert State() == w by { NoSuchMember(w.members, m.groupId, m.memberId); }
        return true, report;
      }
      var row := removed.value.value.membership;
      report' := report.(orphanedMembershipsRemoved := report.orphanedMembershipsRemoved + 1);
      OrphanRowRemoved(run, w, requests, report, j, row);
      KeptAfterOrphan(run, state.kept, j);
      state.RemoveMembership(row);
      OrphanTupleNotInGoal(run, j, row);
      RemovedRowGone(run, w, row);
      ConstructedTuplesHaveNoBars(row.groupId, row.memberId);
      assert State() == RowRemoved(run, w, j);
      assert MembershipTuple(row) == MemberTuple(row.groupId, row.memberId);
      hide MembershipTuple;
      var deleted;
      ok, deleted := DeleteTupleIfPresent(MembershipTuple(row), run, report');
      if !ok {
        CutOffAfterRow(run, w, State(), requests, report, j, row);
        return;
      }
      report' := if deleted then report'.(tuplesDeleted := report'.tuplesDeleted + 1) else report';
      ghost var w2 := State();
      publisher.Publish(RemovedEvent(row));
      ghost var delivered :| publisher.log == w2.log + [Attempt(RemovedEvent(row), delivered)];
      AnnounceOrphan(run, w2.log, report.orphanedMembershipsRemoved, j, row, delivered);
      OrphanStep(run, w, w2, requests, report, authz.requests, report', j, row, delivered);
      assert State() == w2.(log := w2.log + [Attempt(RemovedEvent(row), delivered)]);
    }

    /** One round of the second loop. */
    method RepairMembership(m: Membership, state: ReconciliationState, report: Report, ghost run: Run, ghost j: nat)
      returns (ok: bool, report': Report)
      requires Valid() && state.Valid() && ValidWorld(run.w0)
      requires j < |run.ms| && run.ms[j] == m && run.ids == identity.types.Keys && SnapshotOf(run)
      requires MemberLoop(run, State(), authz.requests, report, j) && KeptAfter(run, state.kept, j)
      requires Announced(run, publisher.log, report.orphanedMembershipsRemoved, j)
      modifies store`groups, store`members, store`calls, authz, identity, publisher, state`memberships, state`kept
      ensures Valid() && state.Valid()
      ensures Faults() == old(Faults()) + if ok then 0 else 1
      ensures ok ==> MemberLoop(run, State(), authz.requests, report', j + 1) && KeptAfter(run, state.kept, j + 1)
      ensures ok ==> Announced(run, publisher.log, report'.orphanedMembershipsRemoved, j + 1)
      ensures !ok ==> publisher.log == old(publisher.log)
      ensures !ok ==> Stopped(run, State(), authz.requests)
    {
      hide Rely, Progressed, InGoal, Quiet, Counts, GoodRequests, GroupsRepaired, MembersRepaired, Published,
           SnapshotOf, KeptAfter, CutOff, ToText, Parse, ValidTables, NoBars, Announced, FaultsIn;
      AnnouncedLater(run, publisher.log, report.orphanedMembershipsRemoved, j, j + 1);
      report' := report;
      var exists';
      ok, exists' := IdentityExists(m.memberId, run.sc);
      ghost var w, requests := State(), authz.requests;
      RelyKeepsMemberLoop(run, old(State()), w, requests, report, j);
      MemberLoopFollowedUp(run, w, requests, report, j);
      if !ok {
        return;
      }
      if !exists' {
        ok, report' := RemoveOrphan(m, state, report, run, j);
        return;
      }
      LiveTupleInGoal(run, j);
      ConstructedTuplesHaveNoBars(m.groupId, m.memberId);
      MembershipTuplesInjective();
      assert MembershipTuple(m) == MemberTuple(m.groupId, m.memberId);
      hide MembershipTuple;
      var written;
      ok, written := EnsureTuple(MembershipTuple(m), run, report);
      if !ok {
        CutOffInEnsure(run, w, State(), requests, report, j, MembershipTuple(m));
        return;
      }
      report' := if written then report.(tuplesWritten := report.tuplesWritten + 1) else report;
      LiveStep(run, w, State(), requests, report, authz.requests, report', j);
      KeptAfterLive(run, state.kept, j);
    }

    /** The second loop; it panics on a membership whose group was not listed. */
    method RepairMemberships(ms: seq<Membership>, state: ReconciliationState, report: Report, ghost run: Run)
      returns (result: ReconcileResult)
      requires Valid() && state.Valid() && state.HoldsGroups(run.gs) && ValidWorld(run.w0)
      requires run.ms == ms && run.ids == identity.types.Keys && SnapshotOf(run)
      requires MemberLoop(run, State(), authz.requests, report, 0) && KeptAfter(run, state.kept, 0)
      requires Announced(run, publisher.log, report.orphanedMembershipsRemoved, 0)
      modifies store`groups, store`members, store`calls, authz, identity, publisher, state`memberships, state`kept
      ensures Valid() && state.Valid()
      ensures Faults() == old(Faults()) + if result.Failed? then 1 else 0
      ensures if result.Completed?
              then Announced(run, publisher.log, result.report.orphanedMembershipsRemoved, |run.ms|)
              else AnnouncedSoFar(run, publisher.log)
      ensures result.Completed? ==> MemberLoop(run, State(), authz.requests, result.report, |run.ms|)
                                    && KeptAfter(run, state.kept, |run.ms|) && EveryGroupListed(run)
      ensures !result.Completed? ==> Stopped(run, State(), authz.requests)
      ensures result.Panicked? ==> !EveryGroupListed(run)
    {
      hide Rely, Progressed, InGoal, Quiet, Counts, GoodRequests, GroupsRepaired, MembersRepaired, Published,
           SnapshotOf, KeptAfter, CutOff, ToText, Parse, ValidTables, MembershipTuple, Announced, AnnouncedSoFar,
           FaultsIn;
      var report' := report;
      var j := 0;
      while j < |ms|
        invariant 0 <= j <= |ms|
        invariant Valid() && state.Valid() && state.HoldsGroups(run.gs)
        invariant MemberLoop(run, State(), authz.requests, report', j) && KeptAfter(run, state.kept, j)
        invariant Announced(run, publisher.log, report'.orphanedMembershipsRemoved, j)
        invariant forall k :: 0 <= k < j ==> ListsGroup(run, ms[k].groupId)
        invariant Faults() == old(Faults())
      {
        AnnouncedLater(run, publisher.log, report'.orphanedMembershipsRemoved, j, |ms|);
        if ms[j].groupId !in state.groups {
          MemberLoopFollowedUp(run, State(), authz.requests, report', j);
          return Panicked;
        }
        var ok;
        ok, report' := RepairMembership(ms[j], state, report', run, j);
        if !ok {
          return Failed;
        }
        j := j + 1;
      }
      result := Completed(report');
    }

    /** The sweep: one batched delete of every managed tuple the run cannot back. */
    method DeleteStaleGroupTuples(state: ReconciliationState, ghost run: Run, ghost r: Report)
      returns (ok: bool, deleted: nat)
      requires Valid() && state.Valid() && state.HoldsGroups(run.gs)
      requires Repaired(run, State(), state.kept, state.adminTuples)
      requires MemberLoop(run, State(), authz.requests, r, |run.ms|)
      modifies store`groups, store`members, store`calls, authz, identity
      ensures Valid()
      ensures Faults() == old(Faults()) + if ok then 0 else 1
      ensures ok ==> && Converged(run.sc, run.ids, run.w0, State()) && Published(run, State())
                     && Counts(run, State(), r.(tuplesDeleted := r.tuplesDeleted + deleted))
                     && GoodRequests(run, authz.requests)
      ensures !ok ==> Stopped(run, State(), authz.requests)
    {
      hide Rely, Progressed, InGoal, Counts, GoodRequests, GroupsRepaired, MembersRepaired, Published, Converged, Quiet,
           AdminsFound, KeptAfter, CutOff, ToText, Parse, ValidTables, HeldBacked;
      EveryCallCounts();
      hide FaultsIn;
      var tuples;
      ok, tuples := ReadTuples(TupleKey("", "", ""), run.sc);
      RelyKeepsMemberLoop(run, old(State()), State(), authz.requests, r, |run.ms|);
      MemberLoopFollowedUp(run, State(), authz.requests, r, |run.ms|);
      if !ok {
        return false, 0;
      }
      assert forall t :: TupleMatches(TupleKey("", "", ""), t);
      var deletes := StaleTuples(state, tuples, run);
      label beforeWrite:
      if |deletes| == 0 {
        StaleIsSwept(run, old(State()), State(), state.kept, state.adminTuples, tuples, deletes);
        SweepDone(run, State(), authz.requests, r, state.kept, state.adminTuples, deletes);
        assert SetOf(deletes) == {};
        assert State().(tuples := State().tuples - SetOf(deletes)) == State();
        return true, 0;
      }
      Interfere(run.sc);
      RelyTransitive(run.sc, old(State()), old@beforeWrite(State()), State());
      RelyKeepsMemberLoop(run, old@beforeWrite(State()), State(), authz.requests, r, |run.ms|);
      ghost var w, requests := State(), authz.requests;
      StaleIsSwept(run, old(State()), w, state.kept, state.adminTuples, tuples, deletes);
      SweepDone(run, w, requests, r, state.kept, state.adminTuples, deletes);
      MemberLoopFollowedUp(run, w, requests, r, |run.ms|);
      SweepStopped(run, w, requests, r, SetOf(deletes));
      ghost var o;
      ok, o := authz.Write([], deletes);
      assert State() == if o.Refused? then w else w.(tuples := w.tuples - SetOf(deletes));
      ConvergedIsUnderway(run, w.(tuples := w.tuples - SetOf(deletes)));
      deleted := |deletes|;
    }

    method StaleTuples(state: ReconciliationState, tuples: seq<TupleKey>, ghost run: Run)
      returns (deletes: seq<TupleKey>)
      requires state.Valid() && state.HoldsGroups(run.gs) && SnapshotOf(run) && Distinct(tuples)
      ensures Distinct(deletes)
      ensures forall t :: t in deletes <==>
                t in tuples && IsManagedGroupTuple(t) && !HeldBacked(run, state.kept, state.adminTuples, t)
    {
      hide ToText, Parse, HeldBacked, TupleKeyString;
      deletes := [];
      var i := 0;
      while i < |tuples|
        invariant 0 <= i <= |tuples|
        invariant Distinct(deletes)
        invariant forall t :: t in deletes <==>
                    t in tuples[..i] && IsManagedGroupTuple(t) && !HeldBacked(run, state.kept, state.adminTuples, t)
      {
        var t := tuples[i];
        assert t !in tuples[..i];
        if IsManagedGroupTuple(t) {
          state.BackedExact(run, t);
          if !state.TupleBackedByStore(t) {
            deletes := deletes + [t];
          }
        }
        i := i + 1;
      }
      assert tuples[..|tuples|] == tuples;
    }

    /** One reconciliation, alone (`sc == ALONE`) or among handlers that keep to
        the scope; the run records what the listings returned. */
    method Reconcile(ghost sc: Scope) returns (result: ReconcileResult, ghost run: Run)
      requires Valid()
      modifies store, authz, identity, publisher
      ensures Valid()
      ensures run.sc == sc && run.ids == identity.types.Keys
      ensures run.w0 == old(State()) && run.requests0 == old(authz.requests)
      ensures Underway(run, State()) && GoodRequests(run, authz.requests)
      ensures Faults() == old(Faults()) + if result.Failed? then 1 else 0
      ensures if result.Completed?
              then Announced(run, publisher.log, result.report.orphanedMembershipsRemoved, |run.ms|)
              else AnnouncedSoFar(run, publisher.log)
      ensures result.Completed? ==> && Converged(sc, run.ids, old(State()), State())
                                    && Counts(run, State(), result.report) && Published(run, State())
      ensures !result.Completed? ==> CutOff(run, State())
      ensures !result.Failed? ==> store.groupListings == old(store.groupListings) + [run.gs]
                                  && store.memberListings == old(store.memberListings) + [run.ms]
      ensures result.Completed? ==> EveryGroupListed(run)
      ensures result.Panicked? ==> !EveryGroupListed(run)
      ensures result.Panicked? ==> UnlistedInScope(run) && sc.groups != {}
    {
      hide Rely, Progressed, InGoal, Counts, GoodRequests, GroupsRepaired, MembersRepaired, Published, Converged, Quiet,
           AdminsFound, KeptAfter, CutOff, ToText, Parse, ValidTables, SnapshotOf, GroupRows, Announced, AnnouncedSoFar,
           GroupLoop, Lists, UnlistedInScope, EveryGroupListed, FaultsIn, Stopped, Underway;
      ghost var w0, requests0 := State(), authz.requests;
      run := Run(sc, identity.types.Keys, w0, requests0, [], []);
      NothingAnnouncedYet(run);
      EveryCallCounts();
      Interfere(sc);
      ghost var a := State();
      NotStarted(run, a);
      StoppedMeans(run, a, requests0);
      var ok, groups := store.ListAllGroups();
      if !ok {
        return Failed, run;
      }
      Interfere(sc);
      ghost var b := State();
      RelyTransitive(sc, w0, a, b);
      NotStarted(run, b);
      StoppedMeans(run, b, requests0);
      var memberships;
      ok, memberships := store.ListAllMemberships();
      if !ok {
        return Failed, run;
      }
      run := Run(sc, identity.types.Keys, w0, requests0, groups, memberships);
      RunStarts(run, a, b);
      UnlistedMeansTouched(run);
      result := RepairListed(groups, memberships, run);
    }

    /** The run from its listings on: both loops and the sweep. */
    method RepairListed(groups: seq<Group>, memberships: seq<Membership>, ghost run: Run)
      returns (result: ReconcileResult)
      requires Valid() && ValidWorld(run.w0) && SnapshotOf(run)
      requires run.gs == groups && run.ms == memberships && run.ids == identity.types.Keys
      requires GroupLoop(run, State(), authz.requests, Report(|groups|, |memberships|, 0, 0, 0), 0)
      requires KeptAfter(run, set m | m in run.ms, 0) && AdminsFound(run, {}, 0) && Announced(run, publisher.log, 0, 0)
      modifies store`groups, store`members, store`calls, authz, identity, publisher
      ensures Valid() && Underway(run, State()) && GoodRequests(run, authz.requests)
      ensures Faults() == old(Faults()) + if result.Failed? then 1 else 0
      ensures if result.Completed?
              then Announced(run, publisher.log, result.report.orphanedMembershipsRemoved, |run.ms|)
              else AnnouncedSoFar(run, publisher.log)
      ensures result.Completed? ==> && Converged(run.sc, run.ids, run.w0, State())
                                    && Counts(run, State(), result.report) && Published(run, State())
      ensures !result.Completed? ==> CutOff(run, State())
      ensures result.Completed? ==> EveryGroupListed(run)
      ensures result.Panicked? ==> !EveryGroupListed(run)
    {
      hide Rely, Progressed, InGoal, Counts, GoodRequests, GroupsRepaired, MembersRepaired, Published, Converged, Quiet,
           AdminsFound, KeptAfter, CutOff, ToText, Parse, ValidTables, HeldBacked, SnapshotOf, Announced,
           AnnouncedSoFar, GroupLoop, MemberLoop, Going, Repaired, FaultsIn, EveryGroupListed;
      var state := new ReconciliationState(groups, memberships);
      var report := Report(|groups|, |memberships|, 0, 0, 0);
      AnnouncedLater(run, publisher.log, 0, 0, 0);
      var ok;
      ok, report := RepairGroups(groups, state, report, run);
      if !ok {
        return Failed;
      }
      GroupsDone(run, State(), authz.requests, report);
      result := RepairMemberships(memberships, state, report, run);
      if !result.Completed? {
        return;
      }
      report := result.report;
      MembersDone(run, State(), authz.requests, report, state.kept, state.adminTuples);
      AnnouncedLater(run, publisher.log, report.orphanedMembershipsRemoved, |run.ms|, |run.ms|);
      var deleted;
      ok, deleted := DeleteStaleGroupTuples(state, run, report);
      if !ok {
        return Failed;
      }
      ConvergedIsUnderway(run, State());
      result := Completed(report.(tuplesDeleted := report.tuplesDeleted + deleted));
    }

    /** What the reconciler does on each tick: a run that changed something is
        reported, one that found nothing to do is not. */
    method ReconcileOnce() returns (completed: bool, reported: bool)
      requires Valid()
      modifies store, authz, identity, publisher
      ensures Valid() && Reconciled(identity.types.Keys, old(State()), completed, State())
      ensures completed <==> Faults() == old(Faults())
      ensures completed && !reported ==> State() == old(State())
      ensures completed && reported ==> authz.tuples != old(authz.tuples) || store.members != old(store.members)
    {
      hide Progressed, Converged, GoodRequests, InGoal, CutOff, ToText, Parse, ValidTables, PublishedExactly, FaultsIn;
      ghost var run;
      var result;
      result, run := Reconcile(ALONE);
      AloneReconciled(run, State(), result.Completed?);
      if !result.Completed? {
        return false, false;
      }
      var report := result.report;
      completed := true;
      reported := !(report.tuplesWritten == 0 && report.tuplesDeleted == 0 && report.orphanedMembershipsRemoved == 0);
      CountsTell(run, State(), report);
    }

    // ----- handlers: each runs alone; `o` is what the call histories say became of its calls -----

    method CreateGroup(input: Group, caller: Uuid) returns (r: Result<Group>, ghost o: CreateOutcome)
      requires Valid()
      modifies store, authz
      ensures Valid() && (State(), r) == CreateGroupSaga(old(State()), input, caller, o)
      ensures Calls() == old(Calls()).Then(CreateCalls(old(State()), input, o))
    {
      hide ToText, ValidTables;
      o := CreateOutcome(Done, Done, Done);
      var created;
      ghost var insert, write, undo;
      created, insert := store.CreateGroup(input);
      o := o.(insert := insert);
      if created.Failure? {
        return created, o;
      }
      var group := created.value;
      ghost var w1 := State();
      assert w1 == AfterCall(old(State()), InsertGroup(input), insert);
      var ok;
      ok, write := WriteGroupCreateTuples(group.id, group.organizationId, caller);
      o := o.(write := write);
      ghost var w2 := State();
      assert w2.tuples == AfterCall(w1, WriteTuples(CreateTuples(group, caller), {}), write).tuples;
      if !ok {
        var ignored;
        ignored, undo := store.DeleteGroup(group.id);
        assert State() == AfterCall(w2, DeleteGroupRow(group.id), undo);
        return Failure(Internal), o.(undo := undo);
      }
      r := Success(group);
    }

    method WriteGroupCreateTuples(groupId: Uuid, organizationId: Uuid, adminId: Uuid)
      returns (ok: bool, ghost o: Outcome)
      modifies authz`tuples, authz`requests, authz`calls
      ensures (ok <==> o.Done?) && authz.calls == old(authz.calls) + [o]
      ensures authz.tuples == if o.Refused? then old(authz.tuples)
                              else old(authz.tuples) + {GroupOrgTuple(groupId, organizationId),
                                                        GroupAdminTuple(groupId, adminId)}
    {
      ok, o := authz.Write([GroupOrgTuple(groupId, organizationId), GroupAdminTuple(groupId, adminId)], []);
    }

    method UpdateGroup(input: UpdateGroupInput) returns (r: Result<Group>, ghost o: UpdateOutcome)
      requires Valid()
      modifies store
      ensures Valid() && (State(), r) == UpdateGroupSaga(old(State()), input, o)
      ensures Calls() == old(Calls()).Then(UpdateCalls(old(State()), input, o))
    {
      var group := store.GetGroup(input.id);
      o := UpdateOutcome(group != Failure(Internal), Done);
      if group.Failure? {
        return group, o;
      }
      if input.name.None? && input.description.None? {
        return Failure(InvalidArgument), o;
      }
      ghost var update;
      r, update := store.UpdateGroup(input);
      o := o.(update := update);
    }

    method ValidateMemberIdentity(memberId: Uuid, memberType: MemberType, organizationId: Uuid)
      returns (r: Result<()>, ghost identityRead: bool, ghost check: MemberCheck)
      modifies identity, authz`checks
      ensures identity.calls == old(identity.calls) + [Answer(identityRead)]
      ensures authz.checks == old(authz.checks)
                + if identityRead && memberId in identity.types
                     && identity.types[memberId] == ExpectedIdentityType(memberType) then [check] else []
      ensures r.Success? ==> memberId in identity.types && identity.types[memberId] == ExpectedIdentityType(memberType)
      ensures r == if !identityRead || memberId !in identity.types
                      || identity.types[memberId] != ExpectedIdentityType(memberType) then Failure(InvalidArgument)
                   else match check
                     case Allowed => Success(())
                     case Denied => Failure(InvalidArgument)
                     case Unanswered => Failure(Internal)
    {
      check := Allowed;
      var found := identity.GetIdentityType(memberId);
      identityRead := found != Failure(Internal);
      if found.Failure? {
        return Failure(InvalidArgument), identityRead, check;
      }
      if found.value == RunnerIdentity {
        return Failure(InvalidArgument), identityRead, check;
      }
      if found.value != ExpectedIdentityType(memberType) {
        return Failure(InvalidArgument), identityRead, check;
      }
      var answer := authz.Check(memberId, organizationId);
      check := answer;
      r := match answer
           case Allowed => Success(())
           case Denied => Failure(InvalidArgument)
           case Unanswered => Failure(Internal);
    }

    method AddMember(input: Membership) returns (r: Result<Membership>, ghost o: AddOutcome)
      requires Valid()
      modifies store, authz, identity, publisher
      ensures Valid() && (State(), r) == AddMemberSaga(identity.types, old(State()), input, o)
      ensures Calls() == old(Calls()).Then(AddCalls(identity.types, old(State()), input, o))
    {
      hide ToText, ValidTables;
      o := AddOutcome(true, true, Allowed, Done, true, Done, Done, true);
      var group := store.GetGroup(input.groupId);
      if group.Failure? {
        return Failure(group.error), o.(groupRead := group.error != Internal);
      }
      var valid;
      ghost var identityRead, check;
      valid, identityRead, check :=
        ValidateMemberIdentity(input.memberId, input.memberType, group.value.organizationId);
      o := o.(identityRead := identityRead, check := check);
      if valid.Failure? {
        return Failure(valid.error), o;
      }
      var added;
      ghost var insert, reread;
      ghost var w := State();
      added, insert, reread := store.AddMember(input);
      o := o.(insert := insert, reread := reread);
      FreshInWorld(w, input);
      if added.Failure? {
        return Failure(added.error), o;
      }
      var (membership, created) := added.value;
      if !created {
        return Success(membership), o;
      }
      ghost var outcome;
      r, outcome := WriteNewMember(membership, o);
      return r, outcome;
    }

    /** Tuple and event of a row just inserted; the row goes again if its tuple cannot be written. */
    method WriteNewMember(membership: Membership, ghost before: AddOutcome)
      returns (r: Result<Membership>, ghost o: AddOutcome)
      requires Valid()
      modifies store, authz`tuples, authz`requests, authz`calls, publisher
      ensures Valid() && (State(), r) == InsertedMemberSaga(old(State()), membership, o)
      ensures o == before.(write := o.write, undo := o.undo, delivered := o.delivered)
      ensures store.calls == old(store.calls) + (if o.write.Done? then [] else [o.undo])
      ensures authz.calls == old(authz.calls) + [o.write]
    {
      hide ToText, ValidTables;
      ghost var write, undo;
      var ok;
      o := before;
      ok, write := authz.Write([MembershipTuple(membership)], []);
      o := o.(write := write);
      assert SetOf([MembershipTuple(membership)]) == {MembershipTuple(membership)} && SetOf([]) == {};
      if !ok {
        var ignored;
        ignored, undo := store.RemoveMember(membership.groupId, membership.memberId);
        return Failure(Internal), o.(undo := undo);
      }
      ghost var log := publisher.log;
      publisher.Publish(AddedEvent(membership));
      ghost var delivered :| publisher.log == log + [Attempt(AddedEvent(membership), delivered)];
      return Success(membership), o.(delivered := delivered);
    }

    method RemoveMember(groupId: Uuid, memberId: Uuid) returns (r: Result<()>, ghost o: RemoveOutcome)
      requires Valid()
      modifies store, authz, publisher
      ensures Valid() && (State(), r) == RemoveMemberSaga(old(State()), groupId, memberId, o)
      ensures Calls() == old(Calls()).Then(RemoveCalls(old(State()), groupId, memberId, o))
    {
      hide ToText, ValidTables;
      o := RemoveOutcome(true, true, Done, Done, true);
      ghost var w, calls := State(), Calls();
      var group := store.GetGroup(groupId);
      if group.Failure? {
        return Failure(group.error), o.(groupRead := group.error != Internal);
      }
      var row := store.GetMembershipByGroupMember(groupId, memberId);
      o := o.(rowRead := row != Failure(Internal));
      if row.Failure? {
        RemovalCalls(w, groupId, memberId, o, calls, Calls(), [], []);
        return if row.error == NotFound then Success(()) else Failure(row.error), o;
      }
      var removed;
      ghost var remove, write;
      removed, remove := store.RemoveMember(groupId, memberId);
      o := o.(remove := remove);
      if removed.Failure? {
        RemovalCalls(w, groupId, memberId, o, calls, Calls(), [remove], []);
        return Failure(removed.error), o;
      }
      if removed.value.None? {
        return Success(()), o;
      }
      var membership := removed.value.value.membership;
      var ok;
      ok, write := authz.Write([], [MembershipTuple(membership)]);
      o := o.(write := write);
      RemovalCalls(w, groupId, memberId, o, calls, Calls(), [remove], [write]);
      assert SetOf([MembershipTuple(membership)]) == {MembershipTuple(membership)} && SetOf([]) == {};
      if !ok {
        return Failure(Internal), o;
      }
      ghost var log := publisher.log;
      publisher.Publish(RemovedEvent(membership));
      ghost var delivered :| publisher.log == log + [Attempt(RemovedEvent(membership), delivered)];
      return Success(()), o.(delivered := delivered);
    }

    /** One user that does not parse fails the whole listing. */
    method ListGroupAdmins(groupId: Uuid) returns (ok: bool, admins: seq<Uuid>, ghost pageReads: seq<Outcome>)
      modifies authz`calls
      ensures authz.calls == old(authz.calls) + pageReads
      ensures ok <==> AllDone(pageReads) && None !in AdminUsers(authz.tuples, groupId)
      ensures ok ==> UserSet(admins) == AdminUsers(authz.tuples, groupId)
    {
      hide ToText, Parse;
      admins := [];
      var filter := TupleKey("", ADMIN_RELATION, GroupObject(groupId));
      var page, next;
      ok, page, next := authz.Read(filter, RECONCILIATION_PAGE_SIZE, None);
      pageReads := [Answer(ok)];
      if !ok {
        assert !pageReads[0].Done?;
        return;
      }
      ghost var snapshot := page + Left(next);
      ghost var seen: seq<TupleKey> := page;
      ok, admins := ParseAdmins(admins, page, []);
      assert [] + page == page;
      while ok && next.Some?
        invariant authz.calls == old(authz.calls) + pageReads && AllDone(pageReads)
        invariant seen + Left(next) == snapshot
        invariant if ok then Parsed(admins, seen) else Unparsed(snapshot)
        decreases ok, next.Some?, |Left(next)|
      {
        ghost var before := pageReads;
        ok, page, next := authz.Read(filter, RECONCILIATION_PAGE_SIZE, next);
        pageReads := pageReads + [Answer(ok)];
        OneMoreCall(before, Answer(ok));
        if !ok {
          return;
        }
        ok, admins := ParseAdmins(admins, page, seen);
        seen := seen + page;
        assert seen + Left(next) == snapshot;
      }
      if ok {
        assert seen + [] == seen;
        AdminsOfListing(authz.tuples, groupId, seen, admins);
        AllUsersParsed(admins);
      } else {
        UnparsedUser(authz.tuples, groupId, snapshot);
      }
    }

    method ParseAdmins(admins: seq<Uuid>, page: seq<TupleKey>, ghost seen: seq<TupleKey>)
      returns (ok: bool, admins': seq<Uuid>)
      requires Parsed(admins, seen)
      ensures if ok then Parsed(admins', seen + page) else Unparsed(page)
    {
      hide ParseIdentityObject;
      admins' := admins;
      var i := 0;
      while i < |page|
        invariant 0 <= i <= |page|
        invariant Parsed(admins', seen + page[..i])
      {
        var adminId := ParseIdentityObject(page[i].user);
        if adminId.None? {
          return false, admins';
        }
        admins' := admins' + [adminId.value];
        assert seen + page[..i + 1] == (seen + page[..i]) + [page[i]];
        i := i + 1;
      }
      ok := true;
      assert page[..|page|] == page;
    }

    /** Ends because the matching rows above the cursor get fewer with every page. */
    method ListAllMembers(groupId: Uuid)
      returns (ok: bool, memberships: seq<Membership>, ghost pageReads: seq<Outcome>)
      requires Valid()
      modifies store`calls
      ensures store.calls == old(store.calls) + pageReads && (ok <==> AllDone(pageReads))
      ensures ok ==> Ascending(memberships, MembershipKey)
      ensures ok ==> forall m :: m in memberships <==> m in MembersOf(store.members, groupId)
    {
      MembersListable(store.groups, store.members, groupId);
      hide *;
      NoReads();
      memberships, pageReads := [], [];
      var cursor: Option<PageCursor> := None;
      var filter := ListMembersFilter(groupId, None);
      ghost var table := MembersMatching(store.members, filter);
      ghost var fetches: seq<Fetch<Membership>> := [];
      NothingFetched(MembershipKey, table);
      var more := true;
      while more
        invariant Following(fetches, MembershipKey, table, memberships, CursorKey(cursor))
        invariant if more then fetches == [] || CursorKey(cursor).Some? else fetches != [] && CursorKey(cursor).None?
        invariant store.calls == old(store.calls) + pageReads && AllDone(pageReads)
        decreases more, Above(table, MembershipKey, CursorKey(cursor))
      {
        var page, next;
        ok, page, next := store.ListMembers(filter, MAX_LIST_PAGE_SIZE, cursor);
        OneMoreCall(pageReads, Answer(ok));
        AnswerDone(ok);
        pageReads := pageReads + [Answer(ok)];
        if !ok {
          return;
        }
        ghost var fetch := Fetch(table, NormalizePageSize(MAX_LIST_PAGE_SIZE), page, CursorKey(next));
        FollowCursor(fetches, MembershipKey, table, memberships, CursorKey(cursor), fetch);
        memberships := memberships + page;
        fetches := fetches + [fetch];
        more := next.Some?;
        cursor := next;
        CursorKeyPresent(cursor);
      }
      ok := true;
      FollowedToTheEnd(fetches, MembershipKey, table, memberships);
    }

    method DeleteGroupTuples(group: Group, admins: seq<Uuid>, memberships: seq<Membership>)
      returns (ok: bool, ghost o: Outcome)
      modifies authz`tuples, authz`requests, authz`calls
      ensures (ok <==> o.Done?) && authz.calls == old(authz.calls) + [o]
      ensures authz.tuples == if o.Refused? then old(authz.tuples)
                              else old(authz.tuples) - {GroupOrgTuple(group.id, group.organizationId)}
                                   - AdminTuplesOf(group.id, admins)
                                   - MemberTuplesOf(memberships)
    {
      hide GroupOrgTuple, GroupAdminTuple, MembershipTuple, AdminTuplesOf, MemberTuplesOf, SetOf;
      NoTuplesYet(group.id);
      var deletes := [GroupOrgTuple(group.id, group.organizationId)];
      SetOfOneMore([], GroupOrgTuple(group.id, group.organizationId));
      assert [] + deletes == deletes;
      var i := 0;
      while i < |admins|
        invariant 0 <= i <= |admins| && authz.tuples == old(authz.tuples) && authz.calls == old(authz.calls)
        invariant SetOf(deletes) == {GroupOrgTuple(group.id, group.organizationId)}
                                    + AdminTuplesOf(group.id, admins[..i])
      {
        SetOfOneMore(deletes, GroupAdminTuple(group.id, admins[i]));
        deletes := deletes + [GroupAdminTuple(group.id, admins[i])];
        AdminTuplesOfOneMore(group.id, admins, i);
        i := i + 1;
      }
      assert admins[..|admins|] == admins;
      i := 0;
      while i < |memberships|
        invariant 0 <= i <= |memberships| && authz.tuples == old(authz.tuples) && authz.calls == old(authz.calls)
        invariant SetOf(deletes) == {GroupOrgTuple(group.id, group.organizationId)}
                                    + AdminTuplesOf(group.id, admins)
                                    + MemberTuplesOf(memberships[..i])
      {
        SetOfOneMore(deletes, MembershipTuple(memberships[i]));
        deletes := deletes + [MembershipTuple(memberships[i])];
        MemberTuplesOfOneMore(memberships, i);
        i := i + 1;
      }
      assert memberships[..|memberships|] == memberships;
      ghost var org, before := {GroupOrgTuple(group.id, group.organizationId)}, authz.tuples;
      ghost var others, rows := AdminTuplesOf(group.id, admins), MemberTuplesOf(memberships);
      assert before - (org + others + rows) + {} == before - org - others - rows;
      ok, o := authz.Write([], deletes);
    }

    method DeleteGroup(id: Uuid) returns (r: Result<()>, ghost o: DeleteOutcome)
      requires Valid()
      modifies store, authz, publisher
      ensures Valid()
      ensures CanDelete(old(State()), id, o)
      ensures (State(), r) == DeleteGroupSaga(old(State()), id, o)
      ensures Calls() == old(Calls()).Then(DeleteCalls(old(State()), id, o))
    {
      assert forall g :: g in store.groups ==> store.groups[g].id == g;
      hide ToText, Parse, ValidTables, AdminUsers, MembersOf, UserSet, TuplesOfGroup, Announcements, WithoutGroup,
           Ascending, GroupOrgTuple, ListedGroupSaga, AllDone, Lists;
      ghost var order: seq<Membership> := SomeOrder(MembersOf(store.members, id));
      o := DeleteOutcome(true, [], [], Done, Done, order, seq(|order| + 1, i => true));
      ghost var w, calls := State(), Calls();
      var found := store.GetGroup(id);
      if found.Failure? {
        return Failure(found.error), o.(groupRead := found.error != Internal);
      }
      var group := found.value;
      var ok, admins;
      ghost var adminReads, memberReads;
      ok, admins, adminReads := ListGroupAdmins(id);
      o := o.(adminReads := adminReads);
      if !ok {
        DeletionCalls(w, id, o, calls, Calls(), []);
        return Failure(Internal), o;
      }
      var memberships;
      ok, memberships, memberReads := ListAllMembers(id);
      o := o.(memberReads := memberReads);
      if !ok {
        DeletionCalls(w, id, o, calls, Calls(), []);
        return Failure(Internal), o;
      }
      ghost var outcome;
      r, outcome := DeleteListedGroup(group, admins, memberships, o);
      DeletionCalls(w, id, outcome, calls, Calls(), [outcome.tuples]);
      return r, outcome;
    }

    /** The group's tuples in one batch, then its row and memberships, then the events. */
    method DeleteListedGroup(group: Group, admins: seq<Uuid>, memberships: seq<Membership>, ghost before: DeleteOutcome)
      returns (r: Result<()>, ghost o: DeleteOutcome)
      requires Valid() && group.id in store.groups && store.groups[group.id] == group
      requires UserSet(admins) == AdminUsers(authz.tuples, group.id)
      requires forall m :: m in memberships <==> m in MembersOf(store.members, group.id)
      requires |before.delivered| == |before.order| + 1 && Lists(before.order, MembersOf(store.members, group.id))
      modifies store, authz`tuples, authz`requests, authz`calls, publisher
      ensures Valid() && |o.delivered| == |o.order| + 1 && Lists(o.order, MembersOf(old(store.members), group.id))
      ensures (State(), r) == ListedGroupSaga(old(State()), group.id, o)
      ensures o == before.(tuples := o.tuples, row := o.row, order := o.order, delivered := o.delivered)
      ensures store.calls == old(store.calls) + (if o.tuples.Done? then [o.row] else [])
      ensures authz.calls == old(authz.calls) + [o.tuples]
    {
      hide ToText, Parse, ValidTables, AdminUsers, MembersOf, UserSet, AdminTuplesOf, MemberTuplesOf, TuplesOfGroup,
           Announcements, WithoutGroup, GroupOrgTuple, Lists;
      o := before;
      ghost var w := State();
      GroupTuplesListed(w, group, admins, memberships);
      ghost var tuples, row;
      var ok;
      ok, tuples := DeleteGroupTuples(group, admins, memberships);
      o := o.(tuples := tuples);
      if !ok {
        return Failure(Internal), o;
      }
      var removed;
      removed, row := store.DeleteGroup(group.id);
      o := o.(row := row);
      if removed.Failure? {
        return Failure(removed.error), o;
      }
      ghost var delivered := AnnounceDeletion(removed.value);
      return Success(()), o.(order := removed.value.memberships, delivered := delivered);
    }

    method AnnounceDeletion(deleted: DeletedGroup) returns (ghost delivered: seq<bool>)
      modifies publisher
      ensures |delivered| == |deleted.memberships| + 1
      ensures publisher.log == old(publisher.log) + Announcements(deleted.group, deleted.memberships, delivered)
    {
      delivered := [];
      var i := 0;
      while i < |deleted.memberships|
        invariant 0 <= i <= |deleted.memberships| && |delivered| == i
        invariant publisher.log == old(publisher.log) + RemovalAttempts(deleted.memberships[..i], delivered)
      {
        ghost var log := publisher.log;
        publisher.Publish(RemovedEvent(deleted.memberships[i]));
        ghost var arrived :| publisher.log == log + [Attempt(RemovedEvent(deleted.memberships[i]), arrived)];
        delivered := delivered + [arrived];
        i := i + 1;
      }
      ghost var log := publisher.log;
      publisher.Publish(GroupDeleted(deleted.group.id, deleted.group.organizationId));
      ghost var arrived :|
        publisher.log == log + [Attempt(GroupDeleted(deleted.group.id, deleted.group.organizationId), arrived)];
      delivered := delivered + [arrived];
    }
  }

  lemma CursorKeyPresent(cursor: Option<PageCursor>)
    ensures CursorKey(cursor).Some? <==> cursor.Some?
  {
  }

  lemma MembersListable(groups: Groups, members: Memberships, g: Uuid)
    requires ValidTables(groups, members)
    ensures Keyed(MembersOf(members, g), MembershipKey)
    ensures MembersMatching(members, ListMembersFilter(g, None)) == MembersOf(members, g)
  {
    MembershipsKeyed(groups, members, MembersOf(members, g));
  }

  lemma SetOfOneMore(ts: seq<TupleKey>, t: TupleKey)
    ensures SetOf(ts + [t]) == SetOf(ts) + {t}
  {
  }

  function AdminTuplesOf(g: Uuid, admins: seq<Uuid>): TupleSet {
    set a | a in admins :: GroupAdminTuple(g, a)
  }

  function MemberTuplesOf(memberships: seq<Membership>): TupleSet {
    set m | m in memberships :: MembershipTuple(m)
  }

  function UserSet(admins: seq<Uuid>): set<Option<Uuid>> {
    set a | a in admins :: Some(a)
  }

  lemma NoTuplesYet(g: Uuid)
    ensures AdminTuplesOf(g, []) == {} && MemberTuplesOf([]) == {} && SetOf([]) == {}
  {
  }

  lemma AdminTuplesOfOneMore(g: Uuid, admins: seq<Uuid>, i: nat)
    requires i < |admins|
    ensures AdminTuplesOf(g, admins[..i + 1]) == AdminTuplesOf(g, admins[..i]) + {GroupAdminTuple(g, admins[i])}
  {
  }

  lemma MemberTuplesOfOneMore(memberships: seq<Membership>, i: nat)
    requires i < |memberships|
    ensures MemberTuplesOf(memberships[..i + 1]) == MemberTuplesOf(memberships[..i]) + {MembershipTuple(memberships[i])}
  {
  }

  lemma SnapshotRead(sc: Scope, w: World, found: World, filter: TupleKey, tuples: seq<TupleKey>)
    requires Rely(sc, w, found) && Lists(tuples, Matching(found.tuples, filter))
    ensures Distinct(tuples) && forall t :: t in tuples ==> TupleMatches(filter, t)
    ensures forall t :: Quiet(sc, t) && TupleMatches(filter, t) ==> (t in tuples <==> t in w.tuples)
  {
    hide Quiet, TupleMatches;
  }

  lemma FreshInWorld(w: World, m: Membership)
    ensures FreshMember(w, m) <==> FreshMember(World(w.groups, w.members, {}, []), m)
  {
  }

  /** The parsed users of the tuples seen so far, in order. */
  ghost predicate Parsed(admins: seq<Uuid>, seen: seq<TupleKey>) {
    |admins| == |seen| && forall i :: 0 <= i < |seen| ==> ParseIdentityObject(seen[i].user) == Some(admins[i])
  }

  lemma RemovalCalls(w: World, g: Uuid, u: Uuid, o: RemoveOutcome, before: CallLog, after: CallLog,
                     removes: seq<Outcome>, writes: seq<Outcome>)
    requires o.groupRead && g in w.groups
    requires removes == if o.rowRead && HasPair(w.members, g, u) then [o.remove] else []
    requires writes == if removes == [Done] then [o.write] else []
    requires after.identity == before.identity && after.checks == before.checks
    requires after.authz == before.authz + writes
    requires after.store == before.store + [Done] + [Answer(o.rowRead)] + removes
    ensures after == before.Then(RemoveCalls(w, g, u, o))
  {
    hide HasPair;
  }

  lemma DeletionCalls(w: World, g: Uuid, o: DeleteOutcome, before: CallLog, after: CallLog, writes: seq<Outcome>)
    requires o.groupRead && g in w.groups
    requires writes == (if Listed(w, g, o) then [o.tuples] else [])
    requires !AdminsListed(w, g, o) ==> o.memberReads == []
    requires after.identity == before.identity && after.checks == before.checks
    requires after.authz == before.authz + o.adminReads + writes
    requires after.store == before.store + [Done] + o.memberReads
                              + (if writes == [Done] then [o.row] else [])
    ensures after == before.Then(DeleteCalls(w, g, o))
  {
    hide AdminUsers, AllDone;
  }

  ghost predicate Unparsed(page: seq<TupleKey>) {
    exists t :: t in page && ParseIdentityObject(t.user).None?
  }

  lemma AllUsersParsed(admins: seq<Uuid>)
    ensures None !in UserSet(admins)
  {
  }

  lemma UnparsedUser(tuples: TupleSet, g: Uuid, snapshot: seq<TupleKey>)
    requires Lists(snapshot, Matching(tuples, TupleKey("", ADMIN_RELATION, GroupObject(g)))) && Unparsed(snapshot)
    ensures None in AdminUsers(tuples, g)
  {
    hide ToText, Parse, ParseIdentityObject;
    var t :| t in snapshot && ParseIdentityObject(t.user).None?;
    assert t in tuples && t.relation == ADMIN_RELATION && t.obj == GroupObject(g);
  }

  lemma NoReads()
    ensures AllDone([])
  {
  }

  lemma AnswerDone(ok: bool)
    ensures Answer(ok).Done? <==> ok
  {
  }

  lemma AdminsOfListing(tuples: TupleSet, g: Uuid, seen: seq<TupleKey>, admins: seq<Uuid>)
    requires Lists(seen, Matching(tuples, TupleKey("", ADMIN_RELATION, GroupObject(g)))) && Parsed(admins, seen)
    ensures UserSet(admins) == AdminUsers(tuples, g)
  {
    hide ToText, Parse, ParseIdentityObject;
    forall x ensures x in UserSet(admins) <==> x in AdminUsers(tuples, g) {
      if x.Some? && x.value in admins {
        var i :| 0 <= i < |admins| && admins[i] == x.value;
        assert seen[i] in seen;
      }
      if x in AdminUsers(tuples, g) {
        var t :| t in tuples && t.relation == ADMIN_RELATION && t.obj == GroupObject(g)
                  && x == ParseIdentityObject(t.user);
        assert t in seen;
        var i :| 0 <= i < |seen| && seen[i] == t;
        assert admins[i] in admins;
      }
    }
  }

  lemma GroupTuplesListed(w: World, g: Group, admins: seq<Uuid>, memberships: seq<Membership>)
    requires UserSet(admins) == AdminUsers(w.tuples, g.id)
    requires forall m :: m in memberships <==> m in MembersOf(w.members, g.id)
    ensures None !in AdminUsers(w.tuples, g.id)
    ensures w.tuples - {GroupOrgTuple(g.id, g.organizationId)}
              - AdminTuplesOf(g.id, admins) - MemberTuplesOf(memberships)
         == w.tuples - TuplesOfGroup(w, g) + {}
  {
  }

  ghost function SomeOrder(rows: Memberships): (order: seq<Membership>)
    ensures Lists(order, rows)
  {
    if m :| m in rows then [m] + SomeOrder(rows - {m}) else []
  }
}
