/** What a listener that folds the delivered events knows about the memberships. */
module Replays {
  import opened Uuids
  import opened Schema
  import opened Tuples
  import opened Worlds
  import opened Progress
  import opened Reconciling
  import opened RunSteps
  import opened Store
  import opened Sagas
  import opened Histories
  import opened Agreement

  type Triple = (Uuid, MemberType, Uuid)

  function TripleOf(m: Membership): Triple {
    (m.groupId, m.memberType, m.memberId)
  }

  function Triples(members: Memberships): set<Triple> {
    set m | m in members :: TripleOf(m)
  }

  function Hear(known: set<Triple>, a: Attempt): set<Triple> {
    if !a.delivered then known
    else match a.event
      case MembershipAdded(g, t, u) => known + {(g, t, u)}
      case MembershipRemoved(g, t, u) => known - {(g, t, u)}
      case GroupDeleted(_, _) => known
  }

  function Replay(log: seq<Attempt>): set<Triple> {
    if log == [] then {} else Hear(Replay(log[..|log| - 1]), log[|log| - 1])
  }

  lemma ReplayOneMore(log: seq<Attempt>, a: Attempt)
    ensures Replay(log + [a]) == Hear(Replay(log), a)
  {
  }

  /** The listener knows exactly the memberships there are. */
  ghost predicate Faithful(w: World) {
    Replay(w.log) == Triples(w.members)
  }

  /** The listener knows every membership there is, perhaps some that are gone. */
  ghost predicate Covered(w: World) {
    Triples(w.members) <= Replay(w.log)
  }

  // ----- batches of removals ----------------------------------------------------------------

  ghost predicate Removals(news: seq<Attempt>) {
    forall i :: 0 <= i < |news| ==> news[i].event.MembershipRemoved?
  }

  /** The removal of the triple is among the attempts and arrived. */
  ghost predicate Told(news: seq<Attempt>, t: Triple) {
    exists i :: 0 <= i < |news| && news[i] == Attempt(MembershipRemoved(t.0, t.1, t.2), true)
  }

  lemma {:induction false} ReplayRemovals(log: seq<Attempt>, news: seq<Attempt>, t: Triple)
    requires Removals(news)
    ensures t in Replay(log + news) <==> t in Replay(log) && !Told(news, t)
  {
    if news == [] {
      assert log + news == log;
    } else {
      var n := |news| - 1;
      var front := news[..n];
      ReplayRemovals(log, front, t);
      assert log + news == (log + front) + [news[n]];
      ReplayOneMore(log + front, news[n]);
      assert Told(news, t) <==> Told(front, t) || news[n] == Attempt(MembershipRemoved(t.0, t.1, t.2), true) by {
        if Told(front, t) {
          var i :| 0 <= i < |front| && front[i] == Attempt(MembershipRemoved(t.0, t.1, t.2), true);
          assert news[i] == front[i];
        }
        if Told(news, t) {
          var i :| 0 <= i < |news| && news[i] == Attempt(MembershipRemoved(t.0, t.1, t.2), true);
          assert i < n ==> front[i] == news[i];
        }
      }
    }
  }

  lemma TripleOfRow(members: Memberships, groups: Groups, m: Membership, removed: Memberships)
    requires ValidMemberships(groups, members) && m in members && removed <= members
    ensures TripleOf(m) in Triples(members - removed) <==> m !in removed
    ensures TripleOf(m) in Triples(members)
  {
  }

  /** Rows gone, removals announced: what the listener then knows, in both senses. */
  lemma RemovalsHeard(w: World, removed: Memberships, news: seq<Attempt>, w': World)
    requires ValidWorld(w) && removed <= w.members && w'.members == w.members - removed
    requires w'.log == w.log + news && Removals(news)
    requires forall t :: Told(news, t) ==> t in Triples(removed)
    ensures Faithful(w) ==> (Faithful(w') <==> forall m :: m in removed ==> Told(news, TripleOf(m)))
    ensures Covered(w) ==> Covered(w')
  {
    hide Replay, Told, Removals, ValidWorld, ValidGroups;
    assert ValidMemberships(w.groups, w.members) by { assert ValidWorld(w); UnfoldValid(w); }
    forall t ensures t in Replay(w'.log) <==> t in Replay(w.log) && !Told(news, t) {
      ReplayRemovals(w.log, news, t);
    }
    forall m | m in w.members ensures TripleOf(m) in Triples(w'.members) <==> m !in removed
                              ensures TripleOf(m) in Triples(w.members) {
      TripleOfRow(w.members, w.groups, m, removed);
    }
    forall a, b | a in w'.members && b in removed ensures TripleOf(a) != TripleOf(b) {
      assert a in w.members && b in w.members;
    }
    forall t | t in Triples(w'.members) ensures t in Triples(w.members) && !Told(news, t) {
      var m :| m in w'.members && t == TripleOf(m);
      assert t !in Triples(removed);
    }
    if Faithful(w) && forall m :: m in removed ==> Told(news, TripleOf(m)) {
      forall t | t in Triples(w.members) && !Told(news, t) ensures t in Triples(w'.members) {
        var m :| m in w.members && t == TripleOf(m);
        assert m !in removed;
      }
    }
    if Faithful(w) && Faithful(w') {
      forall m | m in removed ensures Told(news, TripleOf(m)) {
        assert TripleOf(m) !in Triples(w'.members);
      }
    }
  }

  lemma UnfoldValid(w: World)
    requires ValidWorld(w)
    ensures ValidMemberships(w.groups, w.members)
  {
  }

  // ----- which steps are heard ----------------------------------------------------------------

  /** Exactly the outcomes after which a listener that knew everything still does. */
  ghost predicate Heard(types: IdentityTypes, w: World, s: Step, w': World) {
    match s
    case Creating(_, _, _) => true
    case Updating(_, _) => true
    case Adding(m, o) => Inserts(types, w, m, o) && AddLeavesRow(o) ==> AddAnnounces(o) && o.delivered
    case Removing(g, u, o) => Removes(w, g, u, o) && RemoveDropsRow(o) ==> RemoveAnnounces(o) && o.delivered
    case Deleting(g, o) =>
      Deletes(w, g, o) && DeleteDropsRow(o) ==>
        o.order == [] || (DeleteAnnounces(o) && forall k :: 0 <= k < |o.order| && k < |o.delivered| ==> o.delivered[k])
    case Repairing(_) =>
      |w.log| <= |w'.log| && forall m :: m in w.members - w'.members ==> Told(w'.log[|w.log|..], TripleOf(m))
  }

  lemma CreateHeard(w: World, g: Group, admin: Uuid, o: CreateOutcome)
    requires ValidWorld(w)
    ensures var w' := CreateGroupSaga(w, g, admin, o).0;
            w'.members == w.members && w'.log == w.log
  {
  }

  lemma TriplesOfOneMore(members: Memberships, m: Membership)
    ensures Triples(members + {m}) == Triples(members) + {TripleOf(m)}
    ensures !HasPair(members, m.groupId, m.memberId) ==> TripleOf(m) !in Triples(members)
  {
  }

  lemma SameTriple(a: Membership, b: Membership)
    ensures TripleOf(a) == TripleOf(b) ==> a.groupId == b.groupId && a.memberId == b.memberId
  {
  }

  lemma AddHeard(types: IdentityTypes, w: World, m: Membership, o: AddOutcome)
    requires ValidWorld(w)
    ensures var w' := AddMemberSaga(types, w, m, o).0;
            && (Faithful(w) ==> (Faithful(w') <==> Heard(types, w, Adding(m, o), w')))
            && (Covered(w) && Heard(types, w, Adding(m, o), w') ==> Covered(w'))
  {
    AddEnds(types, w, m, o);
    if Inserts(types, w, m, o) {
      TriplesOfOneMore(w.members, m);
      ReplayOneMore(w.log, Attempt(AddedEvent(m), o.delivered));
    }
    hide AddMemberSaga, Inserts, Triples, Replay;
  }

  lemma RemoveHeard(types: IdentityTypes, w: World, g: Uuid, u: Uuid, o: RemoveOutcome)
    requires ValidWorld(w)
    ensures var w' := RemoveMemberSaga(w, g, u, o).0;
            && (Faithful(w) ==> (Faithful(w') <==> Heard(types, w, Removing(g, u, o), w')))
            && (Covered(w) ==> Covered(w'))
  {
    RemoveEnds(w, g, u, o);
    if Removes(w, g, u, o) && RemoveDropsRow(o) {
      var w' := RemoveMemberSaga(w, g, u, o).0;
      var m := FindMember(w.members, g, u).value;
      RemovedIsOneRow(w, m);
      var a := Attempt(RemovedEvent(m), o.delivered);
      var news := if RemoveAnnounces(o) then [a] else [];
      assert Told(news, TripleOf(m)) <==> RemoveAnnounces(o) && o.delivered by {
        if RemoveAnnounces(o) {
          assert news[0] == a;
        }
      }
      assert Triples({m}) == {TripleOf(m)};
      assert w.members - {m} == WithoutMember(w.members, g, u);
      hide RemoveMemberSaga, Removes, Replay, Triples, FindMember;
      RemovalsHeard(w, {m}, news, w');
    }
  }

  /** In a listing of distinct pairs, a triple is told exactly when its row's publish arrived. */
  lemma ToldInOrder(w: World, rows: Memberships, order: seq<Membership>, delivered: seq<bool>)
    requires ValidWorld(w) && rows <= w.members && Lists(order, rows) && |delivered| >= |order|
    ensures Removals(RemovalAttempts(order, delivered))
    ensures forall t :: Told(RemovalAttempts(order, delivered), t) ==> t in Triples(rows)
    ensures (forall m :: m in rows ==> Told(RemovalAttempts(order, delivered), TripleOf(m)))
       <==> forall k :: 0 <= k < |order| ==> delivered[k]
  {
    hide Triples;
    var news := RemovalAttempts(order, delivered);
    forall k | 0 <= k < |order| ensures Told(news, TripleOf(order[k])) <==> delivered[k] {
      assert news[k].event == RemovedEvent(order[k]) && order[k] in order;
      if Told(news, TripleOf(order[k])) {
        var i :| 0 <= i < |news| && news[i] == Attempt(RemovedEvent(order[k]), true);
        assert order[i] in order;
        SameTriple(order[i], order[k]);
        assert order[i] == order[k];
      }
    }
    forall t | Told(news, t) ensures t in Triples(rows) {
      var i :| 0 <= i < |news| && news[i] == Attempt(MembershipRemoved(t.0, t.1, t.2), true);
      assert order[i] in order && TripleOf(order[i]) == t;
      TripleOfRow(w.members, w.groups, order[i], {});
      TripleIn(rows, order[i]);
    }
    if forall m :: m in rows ==> Told(news, TripleOf(m)) {
      forall k | 0 <= k < |order| ensures delivered[k] {
        assert order[k] in order;
      }
    }
  }

  lemma TripleIn(rows: Memberships, m: Membership)
    requires m in rows
    ensures TripleOf(m) in Triples(rows)
  {
  }

  lemma AnnouncementsSplit(g: Group, order: seq<Membership>, delivered: seq<bool>)
    requires |delivered| == |order| + 1
    ensures Announcements(g, order, delivered) == RemovalAttempts(order, delivered)
              + [Attempt(GroupDeleted(g.id, g.organizationId), delivered[|order|])]
  {
  }

  lemma AnnouncedDeletion(w: World, g: Uuid, o: DeleteOutcome, w': World)
    requires ValidWorld(w) && g in w.groups && CanDelete(w, g, o)
    requires w'.members == WithoutGroup(w.members, g)
    requires w'.log == w.log + Announcements(w.groups[g], o.order, o.delivered)
    ensures Faithful(w) ==> (Faithful(w') <==> forall k :: 0 <= k < |o.order| ==> o.delivered[k])
    ensures Covered(w) ==> Covered(w')
  {
    var rows := MembersOf(w.members, g);
    assert WithoutGroup(w.members, g) == w.members - rows;
    hide Announcements, AdminUsers, Replay, Triples, ValidTables, MembersOf, WithoutGroup, Told, Removals;
    var news := RemovalAttempts(o.order, o.delivered);
    var last := Attempt(GroupDeleted(w.groups[g].id, w.groups[g].organizationId), o.delivered[|o.order|]);
    AnnouncementsSplit(w.groups[g], o.order, o.delivered);
    ToldInOrder(w, rows, o.order, o.delivered);
    hide RemovalAttempts;
    var w1 := w'.(log := w.log + news);
    RemovalsHeard(w, rows, news, w1);
    assert w'.log == w1.log + [last];
    ReplayOneMore(w1.log, last);
  }

  lemma SilentDeletion(w: World, g: Uuid, o: DeleteOutcome, w': World)
    requires ValidWorld(w) && CanDelete(w, g, o)
    requires w'.members == WithoutGroup(w.members, g) && w'.log == w.log
    ensures Faithful(w) ==> (Faithful(w') <==> o.order == [])
    ensures Covered(w) ==> Covered(w')
  {
    var rows := MembersOf(w.members, g);
    assert WithoutGroup(w.members, g) == w.members - rows;
    hide AdminUsers, Replay, Triples, ValidTables, MembersOf, WithoutGroup, Told;
    NothingTold();
    assert w'.log == w.log + [];
    RemovalsHeard(w, rows, [], w');
    assert o.order != [] ==> o.order[0] in rows;
    assert forall m :: m in rows ==> m in o.order;
  }

  lemma DeleteHeard(types: IdentityTypes, w: World, g: Uuid, o: DeleteOutcome)
    requires ValidWorld(w) && CanDelete(w, g, o)
    ensures var w' := DeleteGroupSaga(w, g, o).0;
            && (Faithful(w) ==> (Faithful(w') <==> Heard(types, w, Deleting(g, o), w')))
            && (Covered(w) ==> Covered(w'))
  {
    DeleteEnds(w, g, o);
    if Deletes(w, g, o) && DeleteDropsRow(o) {
      var w' := DeleteGroupSaga(w, g, o).0;
      hide DeleteGroupSaga, TuplesOfGroup, Announcements, AdminUsers, Replay, Triples, ValidTables, MembersOf,
           WithoutGroup, Told, Lists, Faithful, Covered;
      if DeleteAnnounces(o) {
        AnnouncedDeletion(w, g, o, w');
      } else {
        SilentDeletion(w, g, o, w');
      }
    }
  }

  lemma NothingTold()
    ensures forall t :: !Told([], t)
    ensures Removals([])
  {
  }

  lemma PublishedHeard(w: World, w': World, announced: Memberships)
    requires ValidWorld(w) && w'.members <= w.members && announced <= w.members - w'.members
    requires PublishedExactly(w.log, w'.log, announced)
    ensures |w.log| <= |w'.log|
    ensures Faithful(w) ==> (Faithful(w') <==>
              forall m :: m in w.members - w'.members ==> Told(w'.log[|w.log|..], TripleOf(m)))
    ensures Covered(w) ==> Covered(w')
  {
    hide *;
    LogGrows(w.log, w'.log, announced);
    var removed, news := w.members - w'.members, w'.log[|w.log|..];
    assert w'.log == w.log + news && w'.members == w.members - removed;
    PublishedAreRemovals(w.log, w'.log, announced, removed);
    RemovalsHeard(w, removed, news, w');
  }

  lemma ReconcileHeard(types: IdentityTypes, w: World, completed: bool, w': World)
    requires ValidWorld(w) && Reconciled(types.Keys, w, completed, w')
    ensures Faithful(w) ==> (Faithful(w') <==> Heard(types, w, Repairing(completed), w'))
    ensures Covered(w) ==> Covered(w')
  {
    ReconciledIsProgress(types.Keys, w, completed, w');
    hide *;
    AloneGroups(types.Keys, w, w');
    AnnouncedRows(types.Keys, w, completed, w');
    var announced: Memberships :| announced <= w.members - w'.members && PublishedExactly(w.log, w'.log, announced);
    PublishedHeard(w, w', announced);
    ReconciliationHeard(types, w, completed, w');
  }

  lemma ReconciledIsProgress(ids: set<Uuid>, w: World, completed: bool, w': World)
    requires Reconciled(ids, w, completed, w')
    ensures Progressed(ALONE, ids, w, w')
  {
  }

  lemma ReconciliationHeard(types: IdentityTypes, w: World, completed: bool, w': World)
    requires |w.log| <= |w'.log|
    ensures Heard(types, w, Repairing(completed), w')
       <==> forall m :: m in w.members - w'.members ==> Told(w'.log[|w.log|..], TripleOf(m))
  {
  }

  lemma AnnouncedRows(ids: set<Uuid>, w: World, completed: bool, w': World)
    requires Reconciled(ids, w, completed, w')
    ensures exists announced: Memberships ::
              announced <= w.members - w'.members && PublishedExactly(w.log, w'.log, announced)
  {
    hide Progressed, PublishedExactly, MembershipTuple;
    var removed := w.members - w'.members;
    if !completed && !PublishedExactly(w.log, w'.log, removed) {
      var half :| half in removed && PublishedExactly(w.log, w'.log, removed - {half});
    }
  }

  lemma LogGrows(log0: seq<Attempt>, log: seq<Attempt>, announced: Memberships)
    requires PublishedExactly(log0, log, announced)
    ensures log0 <= log
  {
  }

  lemma PublishedAreRemovals(log0: seq<Attempt>, log: seq<Attempt>, announced: Memberships, removed: Memberships)
    requires PublishedExactly(log0, log, announced) && announced <= removed
    ensures Removals(log[|log0|..])
    ensures forall t :: Told(log[|log0|..], t) ==> t in Triples(removed)
  {
  }

  /** From a faithful replay, a step keeps it faithful exactly when it is heard;
      and only an unheard addition can leave a membership the replay misses. */
  lemma StepHeard(types: IdentityTypes, w: World, s: Step, w': World)
    requires ValidWorld(w) && Takes(types, w, s, w')
    ensures Faithful(w) ==> (Faithful(w') <==> Heard(types, w, s, w'))
    ensures Covered(w) && (s.Adding? ==> Heard(types, w, s, w')) ==> Covered(w')
  {
    hide CreateGroupSaga, AddMemberSaga, RemoveMemberSaga, DeleteGroupSaga, ValidWorld, Reconciled,
         Triples, Replay, UpdateClash;
    match s
    case Creating(g, admin, o) => CreateHeard(w, g, admin, o);
    case Updating(input, o) =>
    case Adding(m, o) => AddHeard(types, w, m, o);
    case Removing(g, u, o) => RemoveHeard(types, w, g, u, o);
    case Deleting(g, o) => DeleteHeard(types, w, g, o);
    case Repairing(completed) => ReconcileHeard(types, w, completed, w');
  }

  // ----- the deleted event ------------------------------------------------------------------------

  ghost predicate KnowsNoneOf(known: set<Triple>, g: Uuid) {
    forall t: Triple :: t in known ==> t.0 != g
  }

  /** Whenever a group's deleted event comes, the listener knows no membership of it. */
  ghost predicate DeletionsClosed(log: seq<Attempt>) {
    forall i :: 0 <= i < |log| && log[i].event.GroupDeleted? ==> KnowsNoneOf(Replay(log[..i]), log[i].event.groupId)
  }

  lemma ClosedExtends(log: seq<Attempt>, news: seq<Attempt>)
    requires DeletionsClosed(log)
    requires forall i :: 0 <= i < |news| && news[i].event.GroupDeleted? ==>
               KnowsNoneOf(Replay(log + news[..i]), news[i].event.groupId)
    ensures DeletionsClosed(log + news)
  {
    hide KnowsNoneOf, Replay;
    var all := log + news;
    forall i | 0 <= i < |all| && all[i].event.GroupDeleted?
      ensures KnowsNoneOf(Replay(all[..i]), all[i].event.groupId) {
      if i < |log| {
        assert all[..i] == log[..i];
      } else {
        assert all[..i] == log + news[..i - |log|];
        assert news[i - |log|] == all[i];
      }
    }
  }

  lemma ToldToAll(w: World, g: Uuid, order: seq<Membership>, delivered: seq<bool>, t: Triple)
    requires ValidWorld(w) && Lists(order, MembersOf(w.members, g)) && |delivered| >= |order|
    requires (forall k :: 0 <= k < |order| ==> delivered[k]) && t.0 == g
    ensures Told(RemovalAttempts(order, delivered), t) <==> t in Triples(w.members)
  {
    var rows := MembersOf(w.members, g);
    ToldInOrder(w, rows, order, delivered);
    hide Told, RemovalAttempts, Lists;
    if t in Triples(w.members) {
      var m :| m in w.members && TripleOf(m) == t;
      assert m in rows;
    }
    if t in Triples(rows) {
      var m :| m in rows && TripleOf(m) == t;
      assert m in w.members;
    }
  }

  /** Whichever removals arrive, the deleted event finds the listener knowing none
      of the group exactly when every membership it knew of was told to be gone. */
  lemma DeletionClosedExactly(w: World, g: Uuid, order: seq<Membership>, delivered: seq<bool>)
    requires |delivered| >= |order|
    ensures KnowsNoneOf(Replay(w.log + RemovalAttempts(order, delivered)), g)
       <==> forall t: Triple :: t in Replay(w.log) && t.0 == g ==> Told(RemovalAttempts(order, delivered), t)
  {
    hide Replay, RemovalAttempts, Told;
    var news := RemovalAttempts(order, delivered);
    ToldInOrderRemovals(w, g, order, delivered);
    forall t ensures t in Replay(w.log + news) <==> t in Replay(w.log) && !Told(news, t) {
      ReplayRemovals(w.log, news, t);
    }
  }

  /** So when all of them arrive, it is a matter of what the listener knew before:
      no more of the group than there was. */
  lemma DeliveredDeletionClosed(w: World, g: Uuid, order: seq<Membership>, delivered: seq<bool>)
    requires ValidWorld(w) && Lists(order, MembersOf(w.members, g)) && |delivered| >= |order|
    requires forall k :: 0 <= k < |order| ==> delivered[k]
    ensures KnowsNoneOf(Replay(w.log + RemovalAttempts(order, delivered)), g)
       <==> forall t: Triple :: t in Replay(w.log) && t.0 == g ==> t in Triples(w.members)
  {
    hide Replay, Triples, RemovalAttempts, Told, ValidWorld, MembersOf, Lists, KnowsNoneOf;
    DeletionClosedExactly(w, g, order, delivered);
    forall t: Triple | t.0 == g
      ensures Told(RemovalAttempts(order, delivered), t) <==> t in Triples(w.members) {
      ToldToAll(w, g, order, delivered, t);
    }
  }

  lemma ToldInOrderRemovals(w: World, g: Uuid, order: seq<Membership>, delivered: seq<bool>)
    requires |delivered| >= |order|
    ensures Removals(RemovalAttempts(order, delivered))
  {
  }

  lemma DeleteClosed(types: IdentityTypes, w: World, g: Uuid, o: DeleteOutcome)
    requires ValidWorld(w) && CanDelete(w, g, o) && Faithful(w) && DeletionsClosed(w.log)
    requires Heard(types, w, Deleting(g, o), DeleteGroupSaga(w, g, o).0)
    ensures DeletionsClosed(DeleteGroupSaga(w, g, o).0.log)
  {
    DeleteEnds(w, g, o);
    if Deletes(w, g, o) && DeleteAnnounces(o) {
      hide DeleteGroupSaga, AdminUsers, TuplesOfGroup, Announcements, Replay, Triples;
      var news := RemovalAttempts(o.order, o.delivered);
      var last := Attempt(GroupDeleted(w.groups[g].id, w.groups[g].organizationId), o.delivered[|o.order|]);
      AnnouncementsSplit(w.groups[g], o.order, o.delivered);
      assert forall k :: 0 <= k < |o.order| ==> o.delivered[k];
      DeliveredDeletionClosed(w, g, o.order, o.delivered);
      var batch := news + [last];
      forall i | 0 <= i < |batch| && batch[i].event.GroupDeleted?
        ensures KnowsNoneOf(Replay(w.log + batch[..i]), batch[i].event.groupId) {
        assert i == |news| && batch[..i] == news;
      }
      ClosedExtends(w.log, batch);
    }
  }

  lemma AddClosed(types: IdentityTypes, w: World, m: Membership, o: AddOutcome)
    requires ValidWorld(w) && DeletionsClosed(w.log)
    ensures DeletionsClosed(AddMemberSaga(types, w, m, o).0.log)
  {
    AddEnds(types, w, m, o);
    hide AddMemberSaga, Replay, Inserts, DeletionsClosed;
    ClosedExtends(w.log, [Attempt(AddedEvent(m), o.delivered)]);
  }

  lemma RemoveClosed(w: World, g: Uuid, u: Uuid, o: RemoveOutcome)
    requires ValidWorld(w) && DeletionsClosed(w.log)
    ensures DeletionsClosed(RemoveMemberSaga(w, g, u, o).0.log)
  {
    RemoveEnds(w, g, u, o);
    hide RemoveMemberSaga, Replay, DeletionsClosed;
    if Removes(w, g, u, o) {
      ClosedExtends(w.log, [Attempt(RemovedEvent(FindMember(w.members, g, u).value), o.delivered)]);
    }
  }

  lemma NoDeletionAmong(news: seq<Attempt>)
    requires Removals(news)
    ensures forall i :: 0 <= i < |news| ==> !news[i].event.GroupDeleted?
  {
  }

  lemma RemovalsKeepClosed(log0: seq<Attempt>, log: seq<Attempt>, announced: Memberships)
    requires PublishedExactly(log0, log, announced) && DeletionsClosed(log0)
    ensures DeletionsClosed(log)
  {
    LogGrows(log0, log, announced);
    PublishedAreRemovals(log0, log, announced, announced);
    hide *;
    var news := log[|log0|..];
    NoDeletionAmong(news);
    ClosedExtends(log0, news);
    assert log == log0 + news;
  }

  lemma ReconcileClosed(ids: set<Uuid>, w: World, completed: bool, w': World)
    requires Reconciled(ids, w, completed, w') && DeletionsClosed(w.log)
    ensures DeletionsClosed(w'.log)
  {
    hide *;
    AnnouncedRows(ids, w, completed, w');
    var announced: Memberships :| announced <= w.members - w'.members && PublishedExactly(w.log, w'.log, announced);
    RemovalsKeepClosed(w.log, w'.log, announced);
  }

  lemma StepClosed(types: IdentityTypes, w: World, s: Step, w': World)
    requires ValidWorld(w) && Takes(types, w, s, w') && Heard(types, w, s, w')
    requires Faithful(w) && DeletionsClosed(w.log)
    ensures DeletionsClosed(w'.log)
  {
    hide DeletionsClosed, CreateGroupSaga, AddMemberSaga, RemoveMemberSaga, DeleteGroupSaga, Reconciled, Faithful,
         UpdateClash, Told, ValidWorld;
    match s
    case Creating(g, admin, o) => CreateHeard(w, g, admin, o);
    case Updating(input, o) =>
    case Adding(m, o) => AddClosed(types, w, m, o);
    case Removing(g, u, o) => RemoveClosed(w, g, u, o);
    case Deleting(g, o) => DeleteClosed(types, w, g, o);
    case Repairing(completed) => ReconcileClosed(types.Keys, w, completed, w');
  }

  // ----- whole runs -----------------------------------------------------------------------------------

  ghost predicate AllHeard(types: IdentityTypes, h: History)
    requires |h.worlds| == |h.steps| + 1
  {
    forall i :: 0 <= i < |h.steps| ==> Heard(types, h.worlds[i], h.steps[i], h.worlds[i + 1])
  }

  ghost predicate AdditionsHeard(types: IdentityTypes, h: History)
    requires |h.worlds| == |h.steps| + 1
  {
    forall i :: 0 <= i < |h.steps| && h.steps[i].Adding? ==> Heard(types, h.worlds[i], h.steps[i], h.worlds[i + 1])
  }

  /** Event replay: in a run whose every change is heard, the delivered events
      fold to exactly the memberships, and every deleted event finds its group's
      memberships all taken back. */
  lemma {:induction false} EventReplay(types: IdentityTypes, h: History, n: nat)
    requires IsRun(types, h) && AllHeard(types, h) && n < |h.worlds|
    requires Faithful(h.worlds[0]) && DeletionsClosed(h.worlds[0].log)
    ensures Faithful(h.worlds[n]) && DeletionsClosed(h.worlds[n].log)
  {
    hide Takes, Faithful, DeletionsClosed, Heard;
    if n > 0 {
      EventReplay(types, h, n - 1);
      RunKeepsSchema(types, h, n - 1);
      assert Takes(types, h.worlds[n - 1], h.steps[n - 1], h.worlds[n - 1 + 1]);
      assert Heard(types, h.worlds[n - 1], h.steps[n - 1], h.worlds[n - 1 + 1]);
      StepHeard(types, h.worlds[n - 1], h.steps[n - 1], h.worlds[n]);
      StepClosed(types, h.worlds[n - 1], h.steps[n - 1], h.worlds[n]);
    }
  }

  /** As long as additions are heard, no other failure makes the listener miss a
      membership that exists. */
  lemma {:induction false} ReplayCovers(types: IdentityTypes, h: History, n: nat)
    requires IsRun(types, h) && AdditionsHeard(types, h) && Covered(h.worlds[0]) && n < |h.worlds|
    ensures Covered(h.worlds[n])
  {
    hide Takes, Covered, Heard;
    if n > 0 {
      ReplayCovers(types, h, n - 1);
      RunKeepsSchema(types, h, n - 1);
      assert Takes(types, h.worlds[n - 1], h.steps[n - 1], h.worlds[n - 1 + 1]);
      if h.steps[n - 1].Adding? {
        assert Heard(types, h.worlds[n - 1], h.steps[n - 1], h.worlds[n - 1 + 1]);
      }
      StepHeard(types, h.worlds[n - 1], h.steps[n - 1], h.worlds[n]);
    }
  }

  /** The service starts out agreeing, anchored and faithfully replayed. */
  lemma EmptyWorldIsFaithful()
    ensures Faithful(EMPTY_WORLD) && Covered(EMPTY_WORLD) && DeletionsClosed(EMPTY_WORLD.log)
    ensures Agree(EMPTY_WORLD)
  {
  }

  /** A removal whose tuple write is refused is never announced; if its group is
      deleted next, without any failure, the deleted event still finds the
      listener believing in that membership. */
  lemma FailedRemovalOutlivesGroup(w: World, m: Membership, ro: RemoveOutcome, o: DeleteOutcome)
    requires ValidWorld(w) && Faithful(w) && m in w.members
    requires Removes(w, m.groupId, m.memberId, ro) && ro.remove.Done? && ro.write.Refused?
    requires var w1 := RemoveMemberSaga(w, m.groupId, m.memberId, ro).0;
             CanDelete(w1, m.groupId, o) && Deletes(w1, m.groupId, o) && DeleteAnnounces(o)
             && forall k :: 0 <= k < |o.delivered| ==> o.delivered[k]
    ensures var w1 := RemoveMemberSaga(w, m.groupId, m.memberId, ro).0;
            var w2 := DeleteGroupSaga(w1, m.groupId, o).0;
            !DeletionsClosed(w2.log)
  {
    var g := m.groupId;
    RemoveEnds(w, g, m.memberId, ro);
    RemoveKeepsSchema(w, g, m.memberId, ro);
    var w1 := RemoveMemberSaga(w, g, m.memberId, ro).0;
    DeleteEnds(w1, g, o);
    var w2 := DeleteGroupSaga(w1, g, o).0;
    RemovedIsOneRow(w, m);
    TripleOfRow(w.members, w.groups, m, {m});
    hide RemoveMemberSaga, DeleteGroupSaga, AdminUsers, TuplesOfGroup, Announcements, Replay, Triples, ValidTables;
    var news := RemovalAttempts(o.order, o.delivered);
    AnnouncementsSplit(w1.groups[g], o.order, o.delivered);
    DeliveredDeletionClosed(w1, g, o.order, o.delivered);
    var i := |w1.log| + |news|;
    assert w2.log[..i] == w1.log + news;
    assert w2.log[i].event == GroupDeleted(w1.groups[g].id, w1.groups[g].organizationId);
    assert TripleOf(m) in Replay(w1.log) && TripleOf(m).0 == g && TripleOf(m) !in Triples(w1.members);
  }
}
