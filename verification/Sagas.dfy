/** The handlers of internal/server/groups.go and internal/server/memberships.go
    as what one request does to the world, given what became of each of its calls. */
module Sagas {
  import opened Wrappers
  import opened Uuids
  import opened Schema
  import opened Tuples
  import opened Worlds
  import opened Goal
  import opened Progress
  import opened Reconciling
  import opened Store

  type IdentityTypes = map<Uuid, IdentityType>

  /** What became of the calls to each service, in order. */
  datatype CallLog = CallLog(
    store: seq<Outcome>, authz: seq<Outcome>, identity: seq<Outcome>, checks: seq<MemberCheck>)
  {
    function Then(more: CallLog): CallLog {
      CallLog(store + more.store, authz + more.authz, identity + more.identity, checks + more.checks)
    }
  }

  function ExpectedIdentityType(t: MemberType): IdentityType {
    match t
    case User => UserIdentity
    case Agent => AgentIdentity
    case App => AppIdentity
  }

  // ----- CreateGroup ---------------------------------------------------------------------

  datatype CreateOutcome = CreateOutcome(insert: Outcome, write: Outcome, undo: Outcome)

  function CreateTuples(g: Group, admin: Uuid): TupleSet {
    {GroupOrgTuple(g.id, g.organizationId), GroupAdminTuple(g.id, admin)}
  }

  /** Row first, then its tuples in one write; a failed write takes the row back. */
  function CreateGroupSaga(w: World, g: Group, admin: Uuid, o: CreateOutcome): (World, Result<Group>) {
    if GroupClash(w.groups, g) then
      (w, Failure(if o.insert.Done? then AlreadyExists else Internal))
    else
      var w1 := AfterCall(w, InsertGroup(g), o.insert);
      if !o.insert.Done? then (w1, Failure(Internal))
      else
        var w2 := AfterCall(w1, WriteTuples(CreateTuples(g, admin), {}), o.write);
        if o.write.Done? then (w2, Success(g))
        else (AfterCall(w2, DeleteGroupRow(g.id), o.undo), Failure(Internal))
  }

  /** The calls a creation makes: their outcomes are the ones it acts on. */
  function CreateCalls(w: World, g: Group, o: CreateOutcome): CallLog {
    if GroupClash(w.groups, g) || !o.insert.Done? then CallLog([o.insert], [], [], [])
    else CallLog([o.insert] + if o.write.Done? then [] else [o.undo], [o.write], [], [])
  }

  // ----- UpdateGroup ---------------------------------------------------------------------

  datatype UpdateOutcome = UpdateOutcome(groupRead: bool, update: Outcome)

  function UpdateGroupSaga(w: World, input: UpdateGroupInput, o: UpdateOutcome): (World, Result<Group>) {
    if !o.groupRead then (w, Failure(Internal))
    else if input.id !in w.groups then (w, Failure(NotFound))
    else if input.name.None? && input.description.None? then (w, Failure(InvalidArgument))
    else
      var row := Updated(w.groups[input.id], input);
      if UpdateClash(w.groups, row) then (w, Failure(if o.update.Done? then AlreadyExists else Internal))
      else (AfterCall(w, ReplaceGroup(row), o.update), if o.update.Done? then Success(row) else Failure(Internal))
  }

  function UpdateCalls(w: World, input: UpdateGroupInput, o: UpdateOutcome): CallLog {
    var updates := o.groupRead && input.id in w.groups && (input.name.Some? || input.description.Some?);
    CallLog([Answer(o.groupRead)] + if updates then [o.update] else [], [], [], [])
  }

  // ----- AddMember -----------------------------------------------------------------------

  datatype AddOutcome = AddOutcome(
    groupRead: bool, identityRead: bool, check: MemberCheck,
    insert: Outcome, reread: bool, write: Outcome, undo: Outcome, delivered: bool)

  /** The identity exists, is no runner and has the type the request names. */
  predicate ValidMemberIdentity(types: IdentityTypes, m: Membership) {
    m.memberId in types && types[m.memberId] == ExpectedIdentityType(m.memberType)
  }

  ghost function AddMemberSaga(types: IdentityTypes, w: World, m: Membership, o: AddOutcome)
    : (World, Result<Membership>)
  {
    if !o.groupRead then (w, Failure(Internal))
    else if m.groupId !in w.groups then (w, Failure(NotFound))
    else if !o.identityRead || !ValidMemberIdentity(types, m) then (w, Failure(InvalidArgument))
    else if o.check.Denied? then (w, Failure(InvalidArgument))
    else if o.check.Unanswered? then (w, Failure(Internal))
    else if HasPair(w.members, m.groupId, m.memberId) then
      (w, if o.insert.Done? && o.reread then Success(FindMember(w.members, m.groupId, m.memberId).value)
          else Failure(Internal))
    else if !FreshMember(w, m) then (w, Failure(Internal))
    else NewMemberSaga(w, m, o)
  }

  /** Row first, then its tuple, then the event; a failed write takes the row back. */
  function NewMemberSaga(w: World, m: Membership, o: AddOutcome): (World, Result<Membership>) {
    var w1 := AfterCall(w, InsertMember(m), o.insert);
    if !o.insert.Done? then (w1, Failure(Internal)) else InsertedMemberSaga(w1, m, o)
  }

  function InsertedMemberSaga(w1: World, m: Membership, o: AddOutcome): (World, Result<Membership>) {
    var w2 := AfterCall(w1, WriteTuples({MembershipTuple(m)}, {}), o.write);
    if o.write.Done? then (Apply(w2, Publish(Attempt(AddedEvent(m), o.delivered))), Success(m))
    else (AfterCall(w2, DeleteMember(m.groupId, m.memberId), o.undo), Failure(Internal))
  }

  ghost function AddCalls(types: IdentityTypes, w: World, m: Membership, o: AddOutcome): CallLog {
    if !o.groupRead || m.groupId !in w.groups then CallLog([Answer(o.groupRead)], [], [], [])
    else if !o.identityRead || !ValidMemberIdentity(types, m) then CallLog([Done], [], [Answer(o.identityRead)], [])
    else if !o.check.Allowed? then CallLog([Done], [], [Done], [o.check])
    else if HasPair(w.members, m.groupId, m.memberId) then
      CallLog([Done, o.insert] + if o.insert.Done? then [Answer(o.reread)] else [], [], [Done], [o.check])
    else if !FreshMember(w, m) || !o.insert.Done? then CallLog([Done, o.insert], [], [Done], [o.check])
    else CallLog([Done, o.insert] + if o.write.Done? then [] else [o.undo], [o.write], [Done], [o.check])
  }

  // ----- RemoveMember --------------------------------------------------------------------

  datatype RemoveOutcome = RemoveOutcome(
    groupRead: bool, rowRead: bool, remove: Outcome, write: Outcome, delivered: bool)

  /** Row first, then its tuple, then the event; nothing is taken back. */
  ghost function RemoveMemberSaga(w: World, g: Uuid, u: Uuid, o: RemoveOutcome): (World, Result<()>) {
    if !o.groupRead then (w, Failure(Internal))
    else if g !in w.groups then (w, Failure(NotFound))
    else if !o.rowRead then (w, Failure(Internal))
    else if !HasPair(w.members, g, u) then (w, Success(()))
    else
      var m := FindMember(w.members, g, u).value;
      var w1 := AfterCall(w, DeleteMember(g, u), o.remove);
      if !o.remove.Done? then (w1, Failure(Internal))
      else
        var w2 := AfterCall(w1, WriteTuples({}, {MembershipTuple(m)}), o.write);
        if !o.write.Done? then (w2, Failure(Internal))
        else (Apply(w2, Publish(Attempt(RemovedEvent(m), o.delivered))), Success(()))
  }

  ghost function RemoveCalls(w: World, g: Uuid, u: Uuid, o: RemoveOutcome): CallLog {
    if !o.groupRead || g !in w.groups then CallLog([Answer(o.groupRead)], [], [], [])
    else if !o.rowRead || !HasPair(w.members, g, u) then CallLog([Done, Answer(o.rowRead)], [], [], [])
    else CallLog([Done, Done, o.remove], if o.remove.Done? then [o.write] else [], [], [])
  }

  // ----- DeleteGroup ---------------------------------------------------------------------

  /** What became of the page reads too, the order the store listed the deleted
      rows in, and which publishes arrived. */
  datatype DeleteOutcome = DeleteOutcome(
    groupRead: bool, adminReads: seq<Outcome>, memberReads: seq<Outcome>, tuples: Outcome, row: Outcome,
    order: seq<Membership>, delivered: seq<bool>)

  /** The users of a group's admin tuples, parsed; None where one does not parse. */
  function AdminUsers(tuples: TupleSet, g: Uuid): set<Option<Uuid>> {
    set t | t in tuples && t.relation == ADMIN_RELATION && t.obj == GroupObject(g) :: ParseIdentityObject(t.user)
  }

  function TuplesOfGroup(w: World, g: Group): TupleSet {
    {GroupOrgTuple(g.id, g.organizationId)}
    + (set a | a in AdminUsers(w.tuples, g.id) && a.Some? :: GroupAdminTuple(g.id, a.value))
    + MemberTuples(MembersOf(w.members, g.id))
  }

  function RemovalAttempts(order: seq<Membership>, delivered: seq<bool>): seq<Attempt>
    requires |delivered| >= |order|
  {
    seq(|order|, i requires 0 <= i < |order| => Attempt(RemovedEvent(order[i]), delivered[i]))
  }

  function Announcements(g: Group, order: seq<Membership>, delivered: seq<bool>): seq<Attempt>
    requires |delivered| == |order| + 1
  {
    RemovalAttempts(order, delivered) + [Attempt(GroupDeleted(g.id, g.organizationId), delivered[|order|])]
  }

  /** Every admin page was read and every user on it parsed. */
  predicate AdminsListed(w: World, g: Uuid, o: DeleteOutcome) {
    AllDone(o.adminReads) && None !in AdminUsers(w.tuples, g)
  }

  predicate Listed(w: World, g: Uuid, o: DeleteOutcome) {
    AdminsListed(w, g, o) && AllDone(o.memberReads)
  }

  ghost predicate CanDelete(w: World, g: Uuid, o: DeleteOutcome) {
    |o.delivered| == |o.order| + 1 && Lists(o.order, MembersOf(w.members, g))
  }

  /** Tuples first, then row and memberships in one transaction, then the events. */
  ghost function DeleteGroupSaga(w: World, g: Uuid, o: DeleteOutcome): (World, Result<()>)
    requires |o.delivered| == |o.order| + 1
  {
    if !o.groupRead then (w, Failure(Internal))
    else if g !in w.groups then (w, Failure(NotFound))
    else if !Listed(w, g, o) then (w, Failure(Internal))
    else ListedGroupSaga(w, g, o)
  }

  function ListedGroupSaga(w: World, g: Uuid, o: DeleteOutcome): (World, Result<()>)
    requires g in w.groups && |o.delivered| == |o.order| + 1
  {
    var w1 := AfterCall(w, WriteTuples({}, TuplesOfGroup(w, w.groups[g])), o.tuples);
    if !o.tuples.Done? then (w1, Failure(Internal))
    else
      var w2 := AfterCall(w1, DeleteGroupRow(g), o.row);
      if !o.row.Done? then (w2, Failure(Internal))
      else (w2.(log := w2.log + Announcements(w.groups[g], o.order, o.delivered)), Success(()))
  }

  function DeleteCalls(w: World, g: Uuid, o: DeleteOutcome): CallLog {
    if !o.groupRead || g !in w.groups then CallLog([Answer(o.groupRead)], [], [], [])
    else if !AdminsListed(w, g, o) then CallLog([Done], o.adminReads, [], [])
    else if !Listed(w, g, o) then CallLog([Done] + o.memberReads, o.adminReads, [], [])
    else CallLog([Done] + o.memberReads + if o.tuples.Done? then [o.row] else [], o.adminReads + [o.tuples], [], [])
  }

  // ----- one step of the service ------------------------------------------------------------

  datatype Step =
    | Creating(group: Group, admin: Uuid, create: CreateOutcome)
    | Updating(input: UpdateGroupInput, update: UpdateOutcome)
    | Adding(membership: Membership, add: AddOutcome)
    | Removing(groupId: Uuid, memberId: Uuid, remove: RemoveOutcome)
    | Deleting(groupId: Uuid, delete: DeleteOutcome)
    | Repairing(completed: bool)

  ghost predicate Reconciled(ids: set<Uuid>, w: World, completed: bool, w': World) {
    && Progressed(ALONE, ids, w, w')
    && (completed ==> Converged(ALONE, ids, w, w') && PublishedExactly(w.log, w'.log, w.members - w'.members))
    && (!completed ==> CutOff(Run(ALONE, ids, w, [], [], []), w'))
  }

  /** A request, or a reconciliation, carried out while no other runs. */
  ghost predicate Takes(types: IdentityTypes, w: World, s: Step, w': World) {
    match s
    case Creating(g, admin, o) => w' == CreateGroupSaga(w, g, admin, o).0
    case Updating(input, o) => w' == UpdateGroupSaga(w, input, o).0
    case Adding(m, o) => w' == AddMemberSaga(types, w, m, o).0
    case Removing(g, u, o) => w' == RemoveMemberSaga(w, g, u, o).0
    case Deleting(g, o) => CanDelete(w, g, o) && w' == DeleteGroupSaga(w, g, o).0
    case Repairing(completed) => Reconciled(types.Keys, w, completed, w')
  }

  /** The contract of one undisturbed `Server.Reconcile`, as a step. */
  lemma AloneReconciled(run: Run, w: World, completed: bool)
    requires run.sc == ALONE && Underway(run, w)
    requires completed ==> Converged(ALONE, run.ids, run.w0, w) && Published(run, w)
    requires !completed ==> CutOff(run, w)
    ensures Reconciled(run.ids, run.w0, completed, w)
  {
    hide Progressed, PublishedExactly, MembershipTuple;
    var bare := Run(ALONE, run.ids, run.w0, [], [], []);
    assert CutOff(run, w) ==> CutOff(bare, w);
  }
}
