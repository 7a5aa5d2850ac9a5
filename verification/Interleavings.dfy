/** Reconciliation among running requests: requests keep to what they name, and
    everything else is right when the run completes. */
module Interleavings {
  import opened Wrappers
  import opened Uuids
  import opened Schema
  import opened Tuples
  import opened Worlds
  import opened Goal
  import opened Progress
  import opened Store
  import opened Sagas
  import opened Agreement

  /** What a request names, and so may change. */
  function ScopeOf(s: Step): Scope {
    match s
    case Creating(g, _, _) => Scope({g.id}, {})
    case Updating(input, _) => Scope({input.id}, {})
    case Adding(m, _) => Scope({}, {(m.groupId, m.memberId)})
    case Removing(g, u, _) => Scope({}, {(g, u)})
    case Deleting(g, _) => Scope({g}, {})
    case Repairing(_) => ALONE
  }

  predicate Within(a: Scope, sc: Scope) {
    a.groups <= sc.groups && forall p :: p in a.pairs ==> p in sc.pairs || p.0 in sc.groups
  }

  /** No request's scope is wider than the group or pair it names, and no scope
      excludes a request whose groups and pairs it has. */
  lemma ScopesAreTight(s: Step, g: Uuid, u: Uuid)
    ensures QuietGroup(ScopeOf(s), g) <==>
            match s
            case Creating(x, _, _) => g != x.id
            case Updating(input, _) => g != input.id
            case Deleting(x, _) => g != x
            case _ => true
    ensures QuietPair(ScopeOf(s), g, u) <==>
            match s
            case Adding(m, _) => !(g == m.groupId && u == m.memberId)
            case Removing(x, y, _) => !(g == x && u == y)
            case _ => QuietGroup(ScopeOf(s), g)
    ensures forall sc: Scope ::
              ScopeOf(s).groups <= sc.groups && ScopeOf(s).pairs <= sc.pairs ==> Within(ScopeOf(s), sc)
  {
  }

  /** Whether a single call stays inside the scope. */
  ghost predicate KeepsTo(sc: Scope, e: Effect) {
    match e
    case InsertGroup(g) => !QuietGroup(sc, g.id)
    case ReplaceGroup(g) => !QuietGroup(sc, g.id)
    case DeleteGroupRow(g) => !QuietGroup(sc, g)
    case InsertMember(m) => !QuietPair(sc, m.groupId, m.memberId)
    case DeleteMember(g, u) => !QuietPair(sc, g, u)
    case WriteTuples(writes, deletes) => forall t :: t in writes + deletes ==> !Quiet(sc, t)
    case Publish(_) => true
  }

  /** At whatever moment another request makes such a call, a run may rely on the rest. */
  lemma CallUnderRely(sc: Scope, w: World, e: Effect, o: Outcome)
    requires ValidWorld(w) && Admissible(w, e) && KeepsTo(sc, e)
    ensures Rely(sc, w, AfterCall(w, e, o))
  {
    EffectsKeepSchema(w, e);
    hide ValidTables, Quiet;
  }

  lemma GroupTuplesInScope(sc: Scope, g: Uuid, x: Uuid)
    requires !QuietGroup(sc, g)
    ensures !Quiet(sc, GroupOrgTuple(g, x)) && !Quiet(sc, GroupAdminTuple(g, x)) && !Quiet(sc, MemberTuple(g, x))
  {
    GroupTuplesQuiet(sc, g, x);
    MemberTupleQuiet(sc, g, x);
  }

  // ----- the calls a request makes ------------------------------------------------------------

  predicate TupleOf(g: Uuid, x: Uuid, t: TupleKey) {
    t == GroupOrgTuple(g, x) || t == GroupAdminTuple(g, x) || t == MemberTuple(g, x)
  }

  ghost predicate AboutGroup(g: Uuid, t: TupleKey) {
    exists x :: TupleOf(g, x, t)
  }

  /** The calls that a request may make, whatever it has read before and however
      long ago: a deletion's batch may come from stale pages. */
  ghost predicate MayCall(s: Step, e: Effect) {
    match (s, e)
    case (Creating(g, _, _), InsertGroup(x)) => x == g
    case (Creating(g, admin, _), WriteTuples(writes, deletes)) => writes == CreateTuples(g, admin) && deletes == {}
    case (Creating(g, _, _), DeleteGroupRow(x)) => x == g.id
    case (Updating(input, _), ReplaceGroup(x)) => x.id == input.id
    case (Adding(m, _), InsertMember(x)) => x == m
    case (Adding(m, _), WriteTuples(writes, deletes)) => writes == {MembershipTuple(m)} && deletes == {}
    case (Adding(m, _), DeleteMember(g, u)) => g == m.groupId && u == m.memberId
    case (Adding(m, _), Publish(a)) => a.event == AddedEvent(m)
    case (Removing(g, u, _), DeleteMember(x, y)) => x == g && y == u
    case (Removing(g, u, _), WriteTuples(writes, deletes)) => writes == {} && deletes == {MemberTuple(g, u)}
    case (Removing(g, _, _), Publish(a)) => a.event.groupId == g
    case (Deleting(g, _), WriteTuples(writes, deletes)) => writes == {} && forall t :: t in deletes ==> AboutGroup(g, t)
    case (Deleting(g, _), DeleteGroupRow(x)) => x == g
    case (Deleting(g, _), Publish(a)) => a.event.groupId == g
    case _ => false
  }

  /** Whatever row, admins and memberships the pages showed, the batch is one a deletion may write. */
  lemma BatchOfAnyListing(s: Step, row: Group, admins: set<Uuid>, rows: Memberships)
    requires s.Deleting? && row.id == s.groupId && forall m :: m in rows ==> m.groupId == s.groupId
    ensures MayCall(s, WriteTuples({}, {GroupOrgTuple(row.id, row.organizationId)}
                                       + (set a | a in admins :: GroupAdminTuple(row.id, a)) + MemberTuples(rows)))
  {
    var batch := {GroupOrgTuple(row.id, row.organizationId)}
                 + (set a | a in admins :: GroupAdminTuple(row.id, a)) + MemberTuples(rows);
    assert TupleOf(row.id, row.organizationId, GroupOrgTuple(row.id, row.organizationId));
    forall a | a in admins ensures AboutGroup(row.id, GroupAdminTuple(row.id, a)) {
      assert TupleOf(row.id, a, GroupAdminTuple(row.id, a));
    }
    forall m | m in rows ensures AboutGroup(row.id, MembershipTuple(m)) {
      assert TupleOf(row.id, m.memberId, MembershipTuple(m));
    }
    hide AboutGroup, GroupOrgTuple, GroupAdminTuple, MembershipTuple;
    assert forall t :: t in batch ==> AboutGroup(row.id, t);
  }

  /** Each of these calls stays inside the request's scope, and so inside any wider one. */
  lemma CallKeepsToScope(sc: Scope, s: Step, e: Effect)
    requires MayCall(s, e) && Within(ScopeOf(s), sc)
    ensures KeepsTo(sc, e)
  {
    hide GroupOrgTuple, GroupAdminTuple, MemberTuple, Quiet;
    match s
    case Creating(g, admin, _) =>
      GroupTuplesInScope(sc, g.id, g.organizationId);
      GroupTuplesInScope(sc, g.id, admin);
    case Updating(_, _) =>
    case Adding(m, _) =>
      assert (m.groupId, m.memberId) in ScopeOf(s).pairs;
      MemberTupleQuiet(sc, m.groupId, m.memberId);
    case Removing(g, u, _) =>
      assert (g, u) in ScopeOf(s).pairs;
      MemberTupleQuiet(sc, g, u);
    case Deleting(g, _) =>
      forall t | AboutGroup(g, t) ensures !Quiet(sc, t) {
        var x :| TupleOf(g, x, t);
        GroupTuplesInScope(sc, g, x);
      }
    case Repairing(_) =>
  }

  /** One call, by some request in flight. */
  datatype Call = Call(maker: Step, effect: Effect, outcome: Outcome)

  /** The database refuses a statement that breaks a constraint. */
  ghost function Perform(w: World, c: Call): World {
    if Admissible(w, c.effect) then AfterCall(w, c.effect, c.outcome) else w
  }

  ghost function PerformAll(w: World, calls: seq<Call>): World {
    if calls == [] then w else Perform(PerformAll(w, calls[..|calls| - 1]), calls[|calls| - 1])
  }

  ghost predicate CallsWithin(sc: Scope, calls: seq<Call>) {
    forall i :: 0 <= i < |calls| ==> MayCall(calls[i].maker, calls[i].effect) && Within(ScopeOf(calls[i].maker), sc)
  }

  /** Any interleaving of the calls of any requests in flight amounts to the
      interference that the contract of a reconciliation allows for. */
  lemma {:induction false} CallsUnderRely(sc: Scope, w: World, calls: seq<Call>)
    requires ValidWorld(w) && CallsWithin(sc, calls)
    ensures Rely(sc, w, PerformAll(w, calls))
  {
    hide Rely, KeepsTo, ValidWorld, MayCall, Within, Admissible;
    RelyReflexive(sc, w);
    if calls != [] {
      var front, last := calls[..|calls| - 1], calls[|calls| - 1];
      CallsUnderRely(sc, w, front);
      var w1 := PerformAll(w, front);
      RelyIsValid(sc, w, w1);
      CallKeepsToScope(sc, last.maker, last.effect);
      if Admissible(w1, last.effect) {
        CallUnderRely(sc, w1, last.effect, last.outcome);
        RelyTransitive(sc, w, w1, Perform(w1, last));
      }
    }
  }

  lemma RelyIsValid(sc: Scope, w: World, w': World)
    requires Rely(sc, w, w')
    ensures ValidWorld(w')
  {
  }

  // ----- requests as calls -----------------------------------------------------------------------

  ghost predicate CallsOf(s: Step, calls: seq<Call>) {
    forall i :: 0 <= i < |calls| ==> calls[i].maker == s && MayCall(s, calls[i].effect)
  }

  /** The second world is what some of the request's calls make of the first. */
  ghost predicate Leads(s: Step, w: World, w': World) {
    exists calls :: CallsOf(s, calls) && PerformAll(w, calls) == w'
  }

  lemma LeadsNowhere(s: Step, w: World)
    ensures Leads(s, w, w)
  {
    assert CallsOf(s, []) && PerformAll(w, []) == w;
  }

  lemma PerformOneMore(w: World, calls: seq<Call>, c: Call)
    ensures PerformAll(w, calls + [c]) == Perform(PerformAll(w, calls), c)
  {
    hide Perform;
    assert (calls + [c])[..|calls|] == calls;
  }

  lemma CallsOfOneMore(s: Step, calls: seq<Call>, e: Effect, o: Outcome)
    requires CallsOf(s, calls) && MayCall(s, e)
    ensures CallsOf(s, calls + [Call(s, e, o)])
  {
    hide MayCall;
  }

  lemma LeadsOn(s: Step, w: World, w1: World, e: Effect, o: Outcome)
    requires Leads(s, w, w1) && MayCall(s, e) && Admissible(w1, e)
    ensures Leads(s, w, AfterCall(w1, e, o))
  {
    hide MayCall, Admissible, CallsOf, PerformAll, AfterCall;
    var calls :| CallsOf(s, calls) && PerformAll(w, calls) == w1;
    CallsOfOneMore(s, calls, e, o);
    PerformOneMore(w, calls, Call(s, e, o));
    assert Perform(w1, Call(s, e, o)) == AfterCall(w1, e, o);
  }

  lemma CreateLeads(w: World, s: Step)
    requires s.Creating?
    ensures Leads(s, w, CreateGroupSaga(w, s.group, s.admin, s.create).0)
  {
    hide Leads, CreateTuples, GroupClash;
    var g, o := s.group, s.create;
    LeadsNowhere(s, w);
    if !GroupClash(w.groups, g) {
      var w1 := AfterCall(w, InsertGroup(g), o.insert);
      LeadsOn(s, w, w, InsertGroup(g), o.insert);
      var w2 := AfterCall(w1, WriteTuples(CreateTuples(g, s.admin), {}), o.write);
      LeadsOn(s, w, w1, WriteTuples(CreateTuples(g, s.admin), {}), o.write);
      LeadsOn(s, w, w2, DeleteGroupRow(g.id), o.undo);
    }
  }

  lemma UpdateLeads(w: World, s: Step)
    requires ValidWorld(w) && s.Updating?
    ensures Leads(s, w, UpdateGroupSaga(w, s.input, s.update).0)
  {
    hide Leads;
    LeadsNowhere(s, w);
    if s.input.id in w.groups {
      var row := Updated(w.groups[s.input.id], s.input);
      if !UpdateClash(w.groups, row) {
        LeadsOn(s, w, w, ReplaceGroup(row), s.update.update);
      }
    }
  }

  lemma AddLeads(types: IdentityTypes, w: World, s: Step)
    requires s.Adding?
    ensures Leads(s, w, AddMemberSaga(types, w, s.membership, s.add).0)
  {
    hide Leads, MembershipTuple;
    var m, o := s.membership, s.add;
    LeadsNowhere(s, w);
    if FreshMember(w, m) {
      var w1 := AfterCall(w, InsertMember(m), o.insert);
      LeadsOn(s, w, w, InsertMember(m), o.insert);
      hide FreshMember;
      var w2 := AfterCall(w1, WriteTuples({MembershipTuple(m)}, {}), o.write);
      LeadsOn(s, w, w1, WriteTuples({MembershipTuple(m)}, {}), o.write);
      LeadsOn(s, w, w2, DeleteMember(m.groupId, m.memberId), o.undo);
      LeadsOn(s, w, w2, Publish(Attempt(AddedEvent(m), o.delivered)), Done);
    }
  }

  lemma RemoveLeads(w: World, s: Step)
    requires s.Removing?
    ensures Leads(s, w, RemoveMemberSaga(w, s.groupId, s.memberId, s.remove).0)
  {
    hide Leads;
    var g, u, o := s.groupId, s.memberId, s.remove;
    LeadsNowhere(s, w);
    if HasPair(w.members, g, u) {
      var m := FindMember(w.members, g, u).value;
      assert MembershipTuple(m) == MemberTuple(g, u);
      hide MembershipTuple, FindMember;
      var w1 := AfterCall(w, DeleteMember(g, u), o.remove);
      LeadsOn(s, w, w, DeleteMember(g, u), o.remove);
      var w2 := AfterCall(w1, WriteTuples({}, {MembershipTuple(m)}), o.write);
      LeadsOn(s, w, w1, WriteTuples({}, {MembershipTuple(m)}), o.write);
      LeadsOn(s, w, w2, Publish(Attempt(RemovedEvent(m), o.delivered)), Done);
    }
  }

  lemma {:induction false} EventsLead(s: Step, w: World, w1: World, news: seq<Attempt>)
    requires s.Deleting? && Leads(s, w, w1) && forall i :: 0 <= i < |news| ==> news[i].event.groupId == s.groupId
    ensures Leads(s, w, w1.(log := w1.log + news))
  {
    hide Leads;
    if news == [] {
      assert w1.log + news == w1.log;
    } else {
      var front, last := news[..|news| - 1], news[|news| - 1];
      EventsLead(s, w, w1, front);
      LeadsOn(s, w, w1.(log := w1.log + front), Publish(last), Done);
      assert w1.log + news == w1.log + front + [last];
    }
  }

  lemma DeleteLeads(w: World, s: Step)
    requires ValidWorld(w) && s.Deleting? && CanDelete(w, s.groupId, s.delete)
    ensures Leads(s, w, DeleteGroupSaga(w, s.groupId, s.delete).0)
  {
    hide Leads, AdminUsers, Listed;
    var g, o := s.groupId, s.delete;
    LeadsNowhere(s, w);
    if g in w.groups {
      var row, users := w.groups[g], AdminUsers(w.tuples, g);
      var admins := set a | a in users && a.Some? :: a.value;
      hide GroupOrgTuple, GroupAdminTuple, MembershipTuple, MayCall, ValidTables;
      assert (set a | a in users && a.Some? :: GroupAdminTuple(g, a.value))
          == set x | x in admins :: GroupAdminTuple(g, x);
      BatchOfAnyListing(s, row, admins, MembersOf(w.members, g));
      var batch := WriteTuples({}, TuplesOfGroup(w, row));
      var w1 := AfterCall(w, batch, o.tuples);
      LeadsOn(s, w, w, batch, o.tuples);
      hide TuplesOfGroup;
      var w2 := AfterCall(w1, DeleteGroupRow(g), o.row);
      RowMayGo(s);
      LeadsOn(s, w, w1, DeleteGroupRow(g), o.row);
      var news := Announcements(row, o.order, o.delivered);
      forall i | 0 <= i < |o.order| ensures o.order[i].groupId == g {
        assert o.order[i] in o.order;
      }
      EventsLead(s, w, w2, news);
    }
  }

  lemma RowMayGo(s: Step)
    requires s.Deleting?
    ensures MayCall(s, DeleteGroupRow(s.groupId))
  {
  }

  /** A whole request, wherever it stops, is a sequence of the calls it may make. */
  lemma RequestIsCalls(types: IdentityTypes, w: World, s: Step, w': World)
    requires ValidWorld(w) && Takes(types, w, s, w') && !s.Repairing?
    ensures Leads(s, w, w')
  {
    hide CreateGroupSaga, UpdateGroupSaga, AddMemberSaga, RemoveMemberSaga, DeleteGroupSaga, ValidWorld, Leads;
    match s
    case Creating(_, _, _) => CreateLeads(w, s);
    case Updating(_, _) => UpdateLeads(w, s);
    case Adding(_, _) => AddLeads(types, w, s);
    case Removing(_, _, _) => RemoveLeads(w, s);
    case Deleting(_, _) => DeleteLeads(w, s);
    case Repairing(_) =>
  }

  /** However it fails and wherever it stops, a request keeps to what it names. */
  lemma RequestUnderRely(types: IdentityTypes, sc: Scope, w: World, s: Step, w': World)
    requires ValidWorld(w) && Takes(types, w, s, w') && !s.Repairing? && Within(ScopeOf(s), sc)
    ensures Rely(sc, w, w')
  {
    hide Takes, Rely, MayCall, ValidWorld, Within, PerformAll;
    RequestIsCalls(types, w, s, w');
    var calls :| CallsOf(s, calls) && PerformAll(w, calls) == w';
    CallsUnderRely(sc, w, calls);
  }

  /** Locality, for groups: one that no request touched meanwhile has its org
      tuple, and none of another organization, exactly if it has its row. */
  lemma GroupLocality(sc: Scope, ids: set<Uuid>, w0: World, w: World, g: Uuid, x: Uuid)
    requires Converged(sc, ids, w0, w) && QuietGroup(sc, g)
    ensures g in w.groups <==> g in w0.groups
    ensures GroupOrgTuple(g, x) in w.tuples <==> g in w.groups && w.groups[g].organizationId == x
  {
    GroupTuplesQuiet(sc, g, x);
    OrgInGoal(ids, w0, g, x);
  }

  /** Locality, for pairs: a pair that no request touched has its row exactly if
      it had it and its identity exists, and its tuple exactly if it has its row. */
  lemma PairLocality(sc: Scope, ids: set<Uuid>, w0: World, w: World, g: Uuid, u: Uuid)
    requires Converged(sc, ids, w0, w) && QuietPair(sc, g, u)
    ensures HasPair(w.members, g, u) <==> HasPair(w0.members, g, u) && u in ids
    ensures MemberTuple(g, u) in w.tuples <==> HasPair(w.members, g, u)
  {
    MemberTupleQuiet(sc, g, u);
    PairInGoal(ids, w0, g, u);
    LivePair(ids, w0.members, g, u);
    hide InGoal, Quiet, MemberTuple;
    if m :| m in w.members && m.groupId == g && m.memberId == u {
      assert m in Live(ids, w0.members);
    }
    if m :| m in Live(ids, w0.members) && m.groupId == g && m.memberId == u {
      assert m in w.members;
    }
  }
}
