/** Runs in which nothing fails, and runs in which compensations and announcements
    of additions do not, from the empty world on. */
module FlawlessRuns {
  import opened Wrappers
  import opened Uuids
  import opened Schema
  import opened Tuples
  import opened Worlds
  import opened Progress
  import opened Reconciling
  import opened Sagas
  import opened Histories
  import opened Agreement
  import opened Ordering
  import opened Replays

  /** Every call of the step is carried out and answered. */
  predicate AllAnswered(s: Step) {
    match s
    case Creating(_, _, o) => o.insert.Done? && o.write.Done?
    case Updating(_, o) => o.groupRead && o.update.Done?
    case Adding(_, o) =>
      o.groupRead && o.identityRead && !o.check.Unanswered? && o.insert.Done? && o.reread && o.write.Done?
    case Removing(_, _, o) => o.groupRead && o.rowRead && o.remove.Done? && o.write.Done?
    case Deleting(_, o) =>
      o.groupRead && AllDone(o.adminReads) && AllDone(o.memberReads) && o.tuples.Done? && o.row.Done?
    case Repairing(completed) => completed
  }

  /** Every publish attempt of the step arrives. */
  ghost predicate AllDelivered(w: World, w': World) {
    forall i :: |w.log| <= i < |w'.log| ==> w'.log[i].delivered
  }

  ghost predicate Flawless(h: History)
    requires |h.worlds| == |h.steps| + 1
  {
    forall i :: 0 <= i < |h.steps| ==> AllAnswered(h.steps[i]) && AllDelivered(h.worlds[i], h.worlds[i + 1])
  }

  lemma AnsweredIsUndrifted(types: IdentityTypes, w: World, s: Step)
    requires AllAnswered(s)
    ensures !Drifts(types, w, s)
  {
  }

  lemma AddIsHeard(types: IdentityTypes, w: World, m: Membership, o: AddOutcome)
    requires ValidWorld(w) && AllAnswered(Adding(m, o))
    requires AllDelivered(w, AddMemberSaga(types, w, m, o).0)
    ensures Heard(types, w, Adding(m, o), AddMemberSaga(types, w, m, o).0)
  {
    AddEnds(types, w, m, o);
    if Inserts(types, w, m, o) {
      var w' := AddMemberSaga(types, w, m, o).0;
      hide AddMemberSaga, Inserts, MembershipTuple;
      assert w'.log[|w.log|].delivered == o.delivered;
    }
  }

  lemma RemoveIsHeard(types: IdentityTypes, w: World, g: Uuid, u: Uuid, o: RemoveOutcome)
    requires ValidWorld(w) && AllAnswered(Removing(g, u, o))
    requires AllDelivered(w, RemoveMemberSaga(w, g, u, o).0)
    ensures Heard(types, w, Removing(g, u, o), RemoveMemberSaga(w, g, u, o).0)
  {
    RemoveEnds(w, g, u, o);
    if Removes(w, g, u, o) {
      var w' := RemoveMemberSaga(w, g, u, o).0;
      hide RemoveMemberSaga, MemberTuple;
      assert w'.log[|w.log|].delivered == o.delivered;
    }
  }

  lemma DeleteIsHeard(types: IdentityTypes, w: World, g: Uuid, o: DeleteOutcome)
    requires CanDelete(w, g, o) && AllAnswered(Deleting(g, o))
    requires AllDelivered(w, DeleteGroupSaga(w, g, o).0)
    ensures Heard(types, w, Deleting(g, o), DeleteGroupSaga(w, g, o).0)
  {
    DeleteEnds(w, g, o);
    if Deletes(w, g, o) {
      var w' := DeleteGroupSaga(w, g, o).0;
      hide DeleteGroupSaga, TuplesOfGroup, AdminUsers;
      forall k | 0 <= k < |o.order| ensures o.delivered[k] {
        assert w'.log[|w.log| + k] == Attempt(RemovedEvent(o.order[k]), o.delivered[k]);
      }
    }
  }

  lemma ReconciliationIsHeard(types: IdentityTypes, w: World, w': World)
    requires Reconciled(types.Keys, w, true, w') && AllDelivered(w, w')
    ensures Heard(types, w, Repairing(true), w')
  {
    hide Progressed, Converged, MembershipTuple;
    var news := w'.log[|w.log|..];
    forall m | m in w.members - w'.members ensures Told(news, TripleOf(m)) {
      assert HasRemoval(news, m);
      var i :| 0 <= i < |news| && news[i].event == RemovedEvent(m);
      assert w'.log[|w.log| + i].delivered;
    }
  }

  lemma FlawlessIsHeard(types: IdentityTypes, w: World, s: Step, w': World)
    requires ValidWorld(w) && Takes(types, w, s, w') && AllAnswered(s) && AllDelivered(w, w')
    ensures Heard(types, w, s, w')
  {
    hide CreateGroupSaga, UpdateGroupSaga, AddMemberSaga, RemoveMemberSaga, DeleteGroupSaga, ValidWorld, Reconciled,
         AllDelivered;
    match s
    case Creating(_, _, _) =>
    case Updating(_, _) =>
    case Adding(m, o) => AddIsHeard(types, w, m, o);
    case Removing(g, u, o) => RemoveIsHeard(types, w, g, u, o);
    case Deleting(g, o) => DeleteIsHeard(types, w, g, o);
    case Repairing(_) => ReconciliationIsHeard(types, w, w');
  }

  lemma FlawlessRunIsHeard(types: IdentityTypes, h: History)
    requires IsRun(types, h) && Flawless(h)
    ensures AllHeard(types, h) && Undrifted(types, h)
  {
    hide Takes, Heard, Drifts, AllAnswered, AllDelivered, ValidWorld;
    forall i | 0 <= i < |h.steps|
      ensures Heard(types, h.worlds[i], h.steps[i], h.worlds[i + 1])
      ensures !Drifts(types, h.worlds[i], h.steps[i]) && h.steps[i] != Repairing(false) {
      RunKeepsSchema(types, h, i);
      FlawlessIsHeard(types, h.worlds[i], h.steps[i], h.worlds[i + 1]);
      AnsweredIsUndrifted(types, h.worlds[i], h.steps[i]);
      CutOffIsNoAnswer();
    }
  }

  lemma CutOffIsNoAnswer()
    ensures !AllAnswered(Repairing(false))
  {
  }

  /** From the empty world, a run in which nothing fails keeps, in every state, the
      tuples in agreement with the rows, org and admin tuples anchored, and the
      listener's knowledge exact, with every deleted group closed. */
  lemma FlawlessRun(types: IdentityTypes, h: History, n: nat)
    requires IsRun(types, h) && h.worlds[0] == EMPTY_WORLD && Flawless(h) && n < |h.worlds|
    ensures Agree(h.worlds[n]) && Safe(h.worlds[n]) && TypesAgree(types, h.worlds[n])
    ensures Faithful(h.worlds[n]) && DeletionsClosed(h.worlds[n].log)
  {
    EmptyWorldIsFaithful();
    assert Safe(EMPTY_WORLD) && TypesAgree(types, EMPTY_WORLD);
    FlawlessRunIsHeard(types, h);
    CreationsAnswered(h);
    hide *;
    AgreementInvariant(types, h, n);
    OrderingSafety(types, h, n);
    MemberTypeInvariant(types, h, n);
    EventReplay(types, h, n);
  }

  lemma CreationsAnswered(h: History)
    requires |h.worlds| == |h.steps| + 1 && Flawless(h)
    ensures CreationWritesAnswered(h)
  {
    hide AllDelivered;
  }

  /** Additions are not inserted unheard, are taken back when their tuple cannot be
      written, and their events arrive. */
  predicate Compensated(s: Step) {
    s.Adding? ==> !s.add.insert.ReplyLost? && !s.add.undo.Refused? && s.add.delivered
  }

  /** From the empty world, whatever else fails, the memberships are always a
      subset of what the listener knows, given that. */
  lemma CompensatedRun(types: IdentityTypes, h: History, n: nat)
    requires IsRun(types, h) && h.worlds[0] == EMPTY_WORLD && n < |h.worlds|
    requires forall i :: 0 <= i < |h.steps| ==> Compensated(h.steps[i])
    ensures Covered(h.worlds[n])
  {
    EmptyWorldIsFaithful();
    hide Takes, Covered, ValidWorld;
    forall i | 0 <= i < |h.steps| && h.steps[i].Adding?
      ensures Heard(types, h.worlds[i], h.steps[i], h.worlds[i + 1]) {
      assert Compensated(h.steps[i]);
    }
    ReplayCovers(types, h, n);
  }
}
