/** Authorization tuples: internal/server/tuples.go, the object printers and
    parsers of internal/server/authz.go, and the tuple predicates of
    internal/server/reconciliation.go. */
module Tuples {
  import opened Wrappers
  import opened Uuids
  import opened Schema

  datatype TupleKey = TupleKey(user: string, relation: string, obj: string)

  const ORGANIZATION_PREFIX := "organization:"
  const IDENTITY_PREFIX := "identity:"
  const GROUP_PREFIX := "group:"
  const ORG_RELATION := "org"
  const MEMBER_RELATION := "member"
  const ADMIN_RELATION := "admin"

  predicate HasPrefix(value: string, prefix: string) {
    |prefix| <= |value| && value[..|prefix|] == prefix
  }

  function OrganizationObject(id: Uuid): string {
    ORGANIZATION_PREFIX + ToText(id)
  }

  function IdentityObject(id: Uuid): string {
    IDENTITY_PREFIX + ToText(id)
  }

  function GroupObject(id: Uuid): string {
    GROUP_PREFIX + ToText(id)
  }

  function ParseGroupObject(value: string): Option<Uuid> {
    if HasPrefix(value, GROUP_PREFIX) then Parse(value[|GROUP_PREFIX|..]) else None
  }

  function ParseIdentityObject(value: string): Option<Uuid> {
    if HasPrefix(value, IDENTITY_PREFIX) then Parse(value[|IDENTITY_PREFIX|..]) else None
  }

  function GroupOrgTuple(groupId: Uuid, organizationId: Uuid): TupleKey {
    TupleKey(OrganizationObject(organizationId), ORG_RELATION, GroupObject(groupId))
  }

  function GroupAdminTuple(groupId: Uuid, adminId: Uuid): TupleKey {
    TupleKey(IdentityObject(adminId), ADMIN_RELATION, GroupObject(groupId))
  }

  function MemberTuple(groupId: Uuid, memberId: Uuid): TupleKey {
    TupleKey(IdentityObject(memberId), MEMBER_RELATION, GroupObject(groupId))
  }

  function MembershipTuple(m: Membership): TupleKey {
    MemberTuple(m.groupId, m.memberId)
  }

  predicate IsManagedGroupTuple(t: TupleKey) {
    || (t.relation == ORG_RELATION && HasPrefix(t.user, ORGANIZATION_PREFIX) && HasPrefix(t.obj, GROUP_PREFIX))
    || (t.relation == MEMBER_RELATION && HasPrefix(t.user, IDENTITY_PREFIX) && HasPrefix(t.obj, GROUP_PREFIX))
    || (t.relation == ADMIN_RELATION && HasPrefix(t.user, IDENTITY_PREFIX) && HasPrefix(t.obj, GROUP_PREFIX))
  }

  function TupleKeyString(t: TupleKey): string {
    t.user + "|" + t.relation + "|" + t.obj
  }

  // ----- printing and parsing ------------------------------------------------

  lemma GroupObjectReadBack(g: Uuid)
    ensures ParseGroupObject(GroupObject(g)) == Some(g)
  {
    assert GroupObject(g)[|GROUP_PREFIX|..] == ToText(g);
    ParseToText(g);
  }

  lemma IdentityObjectReadBack(a: Uuid)
    ensures ParseIdentityObject(IdentityObject(a)) == Some(a)
  {
    assert IdentityObject(a)[|IDENTITY_PREFIX|..] == ToText(a);
    ParseToText(a);
  }

  lemma OrganizationObjectInjective(a: Uuid, b: Uuid)
    requires OrganizationObject(a) == OrganizationObject(b)
    ensures a == b
  {
    assert OrganizationObject(a)[|ORGANIZATION_PREFIX|..] == ToText(a);
    assert OrganizationObject(b)[|ORGANIZATION_PREFIX|..] == ToText(b);
    ToTextInjective(a, b);
  }

  lemma GroupObjectInjective(a: Uuid, b: Uuid)
    requires GroupObject(a) == GroupObject(b)
    ensures a == b
  {
    GroupObjectReadBack(a);
    GroupObjectReadBack(b);
  }

  /** Each constructor determines its identifiers, and the three kinds of
      tuple never coincide because their relations differ. */
  lemma TuplesInjective()
    ensures forall g, o, g', o' :: GroupOrgTuple(g, o) == GroupOrgTuple(g', o') ==> g == g' && o == o'
    ensures forall g, a, g', a' :: GroupAdminTuple(g, a) == GroupAdminTuple(g', a') ==> g == g' && a == a'
    ensures forall g, u, g', u' :: MemberTuple(g, u) == MemberTuple(g', u') ==> g == g' && u == u'
  {
    forall g, o, g', o' | GroupOrgTuple(g, o) == GroupOrgTuple(g', o') ensures g == g' && o == o' {
      GroupObjectInjective(g, g');
      OrganizationObjectInjective(o, o');
    }
    forall g, a, g', a' | GroupAdminTuple(g, a) == GroupAdminTuple(g', a') ensures g == g' && a == a' {
      GroupObjectInjective(g, g');
      IdentityObjectReadBack(a);
      IdentityObjectReadBack(a');
    }
    forall g, u, g', u' | MemberTuple(g, u) == MemberTuple(g', u') ensures g == g' && u == u' {
      GroupObjectInjective(g, g');
      IdentityObjectReadBack(u);
      IdentityObjectReadBack(u');
    }
  }

  lemma MembershipTuplesInjective()
    ensures forall a, b :: MembershipTuple(a) == MembershipTuple(b) <==>
              a.groupId == b.groupId && a.memberId == b.memberId
  {
    TuplesInjective();
    hide MemberTuple;
  }

  /** Their relations keep the three kinds of tuple apart. */
  lemma KindsApart()
    ensures forall g, o, g', a :: GroupOrgTuple(g, o) != GroupAdminTuple(g', a)
    ensures forall g, o, g', u :: GroupOrgTuple(g, o) != MemberTuple(g', u)
    ensures forall g, a, g', u :: GroupAdminTuple(g, a) != MemberTuple(g', u)
  {
  }

  lemma OrgIsNoMemberTuple()
    ensures forall g, o, m :: GroupOrgTuple(g, o) != MembershipTuple(m)
  {
  }

  /** The tuples the service writes are ones its own sweep looks at. */
  lemma ConstructedTuplesAreManaged(g: Uuid, x: Uuid)
    ensures IsManagedGroupTuple(GroupOrgTuple(g, x))
    ensures IsManagedGroupTuple(GroupAdminTuple(g, x))
    ensures IsManagedGroupTuple(MemberTuple(g, x))
  {
  }

  // ----- key strings -----------------------------------------------------------

  predicate NoBar(s: string) {
    forall i :: 0 <= i < |s| ==> s[i] != '|'
  }

  predicate NoBars(t: TupleKey) {
    NoBar(t.user) && NoBar(t.relation) && NoBar(t.obj)
  }

  lemma KeyStringBars(t: TupleKey)
    ensures var s := TupleKeyString(t); var p := |t.user|; var q := p + 1 + |t.relation|;
            && |s| == q + 1 + |t.obj| && s[p] == '|' && s[q] == '|'
            && s[..p] == t.user && s[p + 1..q] == t.relation && s[q + 1..] == t.obj
    ensures NoBars(t) ==>
              forall i :: 0 <= i < |TupleKeyString(t)| && TupleKeyString(t)[i] == '|'
                ==> i == |t.user| || i == |t.user| + 1 + |t.relation|
  {
  }

  /** One bar-free tuple is told apart from every tuple, bar-free or not. */
  lemma KeyStringExact(a: TupleKey, b: TupleKey)
    requires NoBars(a) && TupleKeyString(a) == TupleKeyString(b)
    ensures a == b
  {
    KeyStringBars(a);
    KeyStringBars(b);
    var s := TupleKeyString(b);
    var p, q := |b.user|, |b.user| + 1 + |b.relation|;
    assert s[p] == '|' && s[q] == '|';
    assert p == |a.user| && q == |a.user| + 1 + |a.relation|;
  }

  lemma CanonicalTextHasNoBar(u: Uuid)
    ensures NoBar(ToText(u))
  {
  }

  lemma ConstructedTuplesHaveNoBars(g: Uuid, x: Uuid)
    ensures NoBars(GroupOrgTuple(g, x)) && NoBars(GroupAdminTuple(g, x)) && NoBars(MemberTuple(g, x))
  {
    CanonicalTextHasNoBar(g);
    CanonicalTextHasNoBar(x);
  }

  /** A member-tuple key string names its pair and no other tuple. */
  lemma MemberKeyExact(g: Uuid, u: Uuid, t: TupleKey)
    ensures TupleKeyString(MemberTuple(g, u)) == TupleKeyString(t) <==> MemberTuple(g, u) == t
  {
    if TupleKeyString(MemberTuple(g, u)) == TupleKeyString(t) {
      ConstructedTuplesHaveNoBars(g, u);
      KeyStringExact(MemberTuple(g, u), t);
    }
  }

  /** Inside any parseable identifier text, whatever its form, no byte is an 'm'. */
  lemma ParseableTextHasNoM(s: string, i: nat)
    requires Parse(s).Some? && 0 < i < |s| - 1
    ensures s[i] != 'm'
  {
    if |s| == 45 {
      if i < 9 {
        assert Lower(s[..9][i]) == "urn:uuid:"[i];
      } else {
        DashedAlphabet(s[9..], i - 9);
      }
    } else if |s| == 38 {
      DashedAlphabet(s[1..], i - 1);
    } else if |s| == 36 {
      DashedAlphabet(s, i);
    }
  }

  lemma DashedAlphabet(s: string, i: nat)
    requires |s| >= 36 && ParseDashed(s).Some? && i < 36
    ensures IsHex(s[i]) || s[i] == '-'
  {
  }

  /** What the separator "|admin|" would need to start inside a user text. */
  predicate HoldsNoAdminSeparator(user: string) {
    && |user| >= 9
    && (forall i :: 0 <= i < 9 ==> user[i] != '|')
    && (forall i :: 9 < i < |user| - 1 ==> user[i] != 'm')
  }

  lemma ParseableUserHoldsNoSeparator(user: string)
    requires ParseIdentityObject(user).Some?
    ensures HoldsNoAdminSeparator(user)
  {
    var text := user[|IDENTITY_PREFIX|..];
    assert forall i :: 0 <= i < 9 ==> user[i] == IDENTITY_PREFIX[i];
    forall i | 9 < i < |user| - 1 ensures user[i] != 'm' {
      ParseableTextHasNoM(text, i - 9);
      assert text[i - 9] == user[i];
    }
  }

  /** In user "|admin|" object, the separator does not also start elsewhere. */
  lemma AdminSeparatorIsUnique(user: string, obj: string, q: nat)
    requires HoldsNoAdminSeparator(user) && NoBar(obj) && |obj| > 0 && obj[0] == 'g'
    requires var s := user + "|" + ADMIN_RELATION + "|" + obj;
             q + 7 <= |s| && s[q..q + 7] == "|admin|"
    ensures q == |user|
  {
    var s := user + "|" + ADMIN_RELATION + "|" + obj;
    var p := |user|;
    assert s[q] == s[q..q + 7][0] && s[q + 1] == s[q..q + 7][1] && s[q + 2] == s[q..q + 7][2];
    assert s[q + 3] == s[q..q + 7][3] && s[q + 4] == s[q..q + 7][4];
  }

  lemma AdminKeyTellsApart(a: TupleKey, b: TupleKey)
    requires a.relation == ADMIN_RELATION && b.relation == ADMIN_RELATION
    requires HoldsNoAdminSeparator(a.user) && NoBar(a.obj) && |a.obj| > 0 && a.obj[0] == 'g'
    requires TupleKeyString(a) == TupleKeyString(b)
    ensures a == b
  {
    KeyStringBars(a);
    KeyStringBars(b);
    assert TupleKeyString(b)[|b.user|..|b.user| + 7] == "|admin|";
    AdminSeparatorIsUnique(a.user, a.obj, |b.user|);
  }

  /** The user of an accepted admin tuple may be written in any parseable form,
      even one with a bar in it; its key string still names no other tuple. */
  lemma AdminKeyExact(g: Uuid, a: TupleKey, b: TupleKey)
    requires a.relation == ADMIN_RELATION && b.relation == ADMIN_RELATION
    requires a.obj == GroupObject(g) && ParseIdentityObject(a.user).Some?
    requires TupleKeyString(a) == TupleKeyString(b)
    ensures a == b
  {
    ParseableUserHoldsNoSeparator(a.user);
    CanonicalTextHasNoBar(g);
    AdminKeyTellsApart(a, b);
  }
}
