/** Everything the service keeps: the two tables, the authorization tuples and
    the publish attempts, and the atomic effects that change them. */
module Worlds {
  import opened Wrappers
  import opened Uuids
  import opened Schema
  import opened Tuples

  datatype Event =
    | MembershipAdded(groupId: Uuid, memberType: MemberType, memberId: Uuid)
    | MembershipRemoved(groupId: Uuid, memberType: MemberType, memberId: Uuid)
    | GroupDeleted(groupId: Uuid, organizationId: Uuid)

  datatype Attempt = Attempt(event: Event, delivered: bool)

  type TupleSet = set<TupleKey>

  datatype World = World(groups: Groups, members: Memberships, tuples: TupleSet, log: seq<Attempt>)

  const EMPTY_WORLD := World(map[], {}, {}, [])

  function AddedEvent(m: Membership): Event {
    MembershipAdded(m.groupId, m.memberType, m.memberId)
  }

  function RemovedEvent(m: Membership): Event {
    MembershipRemoved(m.groupId, m.memberType, m.memberId)
  }

  /** One statement or transaction on the tables, one `Write` on the tuple
      store (all or nothing), or one publish attempt. */
  datatype Effect =
    | InsertGroup(group: Group)
    | ReplaceGroup(group: Group)
    | DeleteGroupRow(groupId: Uuid)
    | InsertMember(membership: Membership)
    | DeleteMember(groupId: Uuid, memberId: Uuid)
    | WriteTuples(writes: TupleSet, deletes: TupleSet)
    | Publish(attempt: Attempt)

  function WithoutGroup(members: Memberships, groupId: Uuid): Memberships {
    set m | m in members && m.groupId != groupId
  }

  function WithoutMember(members: Memberships, groupId: Uuid, memberId: Uuid): Memberships {
    set m | m in members && !(m.groupId == groupId && m.memberId == memberId)
  }

  function MembersOf(members: Memberships, groupId: Uuid): Memberships {
    set m | m in members && m.groupId == groupId
  }

  function Apply(w: World, e: Effect): World {
    match e
    case InsertGroup(g) => w.(groups := w.groups[g.id := g])
    case ReplaceGroup(g) => w.(groups := w.groups[g.id := g])
    case DeleteGroupRow(id) => w.(groups := w.groups - {id}, members := WithoutGroup(w.members, id))
    case InsertMember(m) => w.(members := w.members + {m})
    case DeleteMember(g, u) => w.(members := WithoutMember(w.members, g, u))
    case WriteTuples(writes, deletes) => w.(tuples := w.tuples - deletes + writes)
    case Publish(a) => w.(log := w.log + [a])
  }

  /** A refused call leaves no trace; a lost reply does not undo the effect. */
  function AfterCall(w: World, e: Effect, o: Outcome): World {
    if o.Refused? then w else Apply(w, e)
  }

  /** What the database checks before an insert or update takes effect. */
  predicate GroupClash(groups: Groups, g: Group) {
    g.id in groups || exists id :: id in groups && Clash(groups[id], g)
  }

  /** The row of a pair; the schema allows at most one. */
  ghost function FindMember(members: Memberships, groupId: Uuid, memberId: Uuid): (r: Option<Membership>)
    ensures r.Some? <==> HasPair(members, groupId, memberId)
    ensures r.Some? ==> r.value in members && r.value.groupId == groupId && r.value.memberId == memberId
  {
    if m :| m in members && m.groupId == groupId && m.memberId == memberId then Some(m) else None
  }

  /** An insert that is neither a repeat of a pair nor a breach of a key. */
  ghost predicate FreshMember(w: World, m: Membership) {
    && m.groupId in w.groups && !HasPair(w.members, m.groupId, m.memberId)
    && forall x :: x in w.members ==> x.id != m.id
  }

  ghost predicate ValidWorld(w: World) {
    ValidTables(w.groups, w.members)
  }

  /** Whether the database accepts the statement in this state. */
  ghost predicate Admissible(w: World, e: Effect) {
    match e
    case InsertGroup(g) => !GroupClash(w.groups, g)
    case ReplaceGroup(g) =>
      g.id in w.groups && forall id :: id in w.groups && id != g.id ==> !Clash(w.groups[id], g)
    case InsertMember(m) => FreshMember(w, m)
    case _ => true
  }

  lemma ClashSymmetric(a: Group, b: Group)
    ensures Clash(a, b) == Clash(b, a)
  {
  }

  /** No admissible effect breaks a constraint of the schema. */
  lemma EffectsKeepSchema(w: World, e: Effect)
    requires ValidWorld(w) && Admissible(w, e)
    ensures ValidWorld(Apply(w, e))
  {
    var w' := Apply(w, e);
    if e.InsertGroup? || e.ReplaceGroup? {
      forall a, b | a in w'.groups && b in w'.groups && a != b ensures !Clash(w'.groups[a], w'.groups[b]) {
        ClashSymmetric(w'.groups[a], w'.groups[b]);
      }
    }
  }
}
