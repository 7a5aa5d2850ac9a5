/** internal/store/query_helpers.go: how list queries and updates are compiled
    to clauses with positional placeholders, and what the database makes of them. */
module Query {
  import opened Wrappers
  import opened Uuids
  import opened Schema
  import opened Pagination
  import opened Keyset

  datatype Table = GroupsTable | MembershipsTable

  datatype Field =
    | Id | OrganizationId | Name | Description | Source | ExternalId
    | GroupId | MemberTypeField | MemberId

  /** A column name, with or without its table in front. */
  datatype Column = Plain(field: Field) | Qualified(table: Table, field: Field)

  datatype Value =
    | UuidValue(id: Uuid) | TextValue(text: string) | SourceValue(source: GroupSource)
    | MemberTypeValue(memberType: MemberType) | NumberValue(number: int) | NullValue

  /** A row of one table, or of `groups JOIN group_memberships`. */
  datatype Row =
    | GroupRow(group: Group)
    | MembershipRow(membership: Membership)
    | JoinRow(group: Group, membership: Membership)

  function GroupField(g: Group, f: Field): Option<Value> {
    match f
    case Id => Some(UuidValue(g.id))
    case OrganizationId => Some(UuidValue(g.organizationId))
    case Name => Some(TextValue(g.name))
    case Description => Some(TextValue(g.description))
    case Source => Some(SourceValue(g.source))
    case ExternalId => Some(if g.externalId.Some? then TextValue(g.externalId.value) else NullValue)
    case _ => None
  }

  function MembershipField(m: Membership, f: Field): Option<Value> {
    match f
    case Id => Some(UuidValue(m.id))
    case GroupId => Some(UuidValue(m.groupId))
    case MemberTypeField => Some(MemberTypeValue(m.memberType))
    case MemberId => Some(UuidValue(m.memberId))
    case Source => Some(SourceValue(m.source))
    case _ => None
  }

  /** Name resolution: a plain name that both joined tables carry is ambiguous. */
  function Resolve(r: Row, c: Column): Option<Value> {
    match (r, c)
    case (GroupRow(g), Plain(f)) => GroupField(g, f)
    case (GroupRow(g), Qualified(GroupsTable, f)) => GroupField(g, f)
    case (MembershipRow(m), Plain(f)) => MembershipField(m, f)
    case (MembershipRow(m), Qualified(MembershipsTable, f)) => MembershipField(m, f)
    case (JoinRow(g, m), Qualified(GroupsTable, f)) => GroupField(g, f)
    case (JoinRow(g, m), Qualified(MembershipsTable, f)) => MembershipField(m, f)
    case (JoinRow(g, m), Plain(f)) =>
      if GroupField(g, f).Some? && MembershipField(m, f).Some? then None
      else if GroupField(g, f).Some? then GroupField(g, f) else MembershipField(m, f)
    case _ => None
  }

  datatype Operator = Equals | Greater

  /** `column = $n` or `column > $n`; placeholders count from one. */
  datatype Clause = Clause(column: Column, op: Operator, placeholder: nat)

  datatype Select = Select(clauses: seq<Clause>, orderBy: Column, limitPlaceholder: nat)

  predicate Satisfies(op: Operator, column: Option<Value>, arg: Value) {
    match (op, column)
    case (Equals, Some(v)) => v == arg && v != NullValue
    case (Greater, Some(UuidValue(u))) => arg.UuidValue? && Less(arg.id, u)
    case _ => false
  }

  predicate Holds(c: Clause, args: seq<Value>, r: Row) {
    1 <= c.placeholder <= |args| && Satisfies(c.op, Resolve(r, c.column), args[c.placeholder - 1])
  }

  predicate Matches(clauses: seq<Clause>, args: seq<Value>, r: Row) {
    forall i :: 0 <= i < |clauses| ==> Holds(clauses[i], args, r)
  }

  /** Placeholder n stands for argument n, and every argument has its clause. */
  predicate WellBound(clauses: seq<Clause>, args: seq<Value>) {
    |clauses| == |args| && forall i :: 0 <= i < |clauses| ==> clauses[i].placeholder == i + 1
  }

  /** The same for a finished query: $1..$n in clause order, the limit last. */
  predicate WellFormed(q: Select, args: seq<Value>) {
    && q.limitPlaceholder == |args| == |q.clauses| + 1
    && args[|q.clauses|].NumberValue?
    && forall i :: 0 <= i < |q.clauses| ==> q.clauses[i].placeholder == i + 1
  }

  method AppendClause(clauses: seq<Clause>, args: seq<Value>, column: Column, op: Operator, value: Value)
    returns (clauses': seq<Clause>, args': seq<Value>)
    requires WellBound(clauses, args)
    ensures WellBound(clauses', args')
    ensures |args'| == |args| + 1
    ensures forall r :: Matches(clauses', args', r)
              <==> Matches(clauses, args, r) && Holds(Clause(column, op, 1), [value], r)
  {
    var placeholder := |args| + 1;
    clauses' := clauses + [Clause(column, op, placeholder)];
    args' := args + [value];
    forall r ensures Matches(clauses', args', r)
                <==> Matches(clauses, args, r) && Holds(Clause(column, op, 1), [value], r) {
      MatchesAppend(clauses, args, Clause(column, op, placeholder), value, r);
    }
  }

  lemma MatchesAppend(clauses: seq<Clause>, args: seq<Value>, c: Clause, value: Value, r: Row)
    requires WellBound(clauses, args) && c.placeholder == |args| + 1
    ensures Matches(clauses + [c], args + [value], r)
       <==> Matches(clauses, args, r) && Holds(c.(placeholder := 1), [value], r)
  {
    hide Satisfies;
    var cs, xs := clauses + [c], args + [value];
    assert forall i :: 0 <= i < |clauses| ==> cs[i] == clauses[i] && xs[i] == args[i];
    assert cs[|clauses|] == c && xs[|args|] == value;
    if Matches(clauses, args, r) && Holds(c.(placeholder := 1), [value], r) {
      forall i | 0 <= i < |cs| ensures Holds(cs[i], xs, r) {
        assert i < |clauses| ==> Holds(clauses[i], args, r);
      }
    }
    if Matches(cs, xs, r) {
      assert Holds(cs[|clauses|], xs, r);
      forall i | 0 <= i < |clauses| ensures Holds(clauses[i], args, r) {
        assert Holds(cs[i], xs, r);
      }
    }
  }

  /** Appending further arguments changes no clause that is already bound. */
  lemma MatchesExtraArgument(clauses: seq<Clause>, args: seq<Value>, extra: Value, r: Row)
    requires WellBound(clauses, args)
    ensures Matches(clauses, args + [extra], r) <==> Matches(clauses, args, r)
  {
  }

  predicate IsAbove(r: Row, column: Column, cursor: Option<PageCursor>) {
    cursor.Some? ==> match Resolve(r, column)
                     case Some(UuidValue(u)) => Less(cursor.value.afterId, u)
                     case _ => false
  }

  method BuildListEntitiesQuery(clauses: seq<Clause>, args: seq<Value>, cursor: Option<PageCursor>,
                                pageSize: Int32, cursorColumn: Column)
    returns (query: Select, allArgs: seq<Value>, limit: Int32)
    requires WellBound(clauses, args)
    ensures WellFormed(query, allArgs)
    ensures limit == NormalizePageSize(pageSize)
    ensures query.orderBy == cursorColumn
    ensures allArgs[query.limitPlaceholder - 1] == NumberValue(limit + 1)
    ensures forall r :: Matches(query.clauses, allArgs, r)
              <==> Matches(clauses, args, r) && IsAbove(r, cursorColumn, cursor)
  {
    limit := NormalizePageSize(pageSize);
    var paramIndex := |args| + 1;
    var cs, xs := clauses, args;
    if cursor.Some? {
      cs := cs + [Clause(cursorColumn, Greater, paramIndex)];
      xs := xs + [UuidValue(cursor.value.afterId)];
      paramIndex := paramIndex + 1;
    }
    query := Select(cs, cursorColumn, paramIndex);
    allArgs := xs + [NumberValue(limit + 1)];
    forall r ensures Matches(query.clauses, allArgs, r)
                <==> Matches(clauses, args, r) && IsAbove(r, cursorColumn, cursor) {
      MatchesExtraArgument(cs, xs, NumberValue(limit + 1), r);
      if cursor.Some? {
        MatchesAppend(clauses, args, cs[|clauses|], UuidValue(cursor.value.afterId), r);
      }
    }
  }

  // ----- the database --------------------------------------------------------------

  /** The rows of a table that a query's clauses select; `view` lays a row out in columns. */
  function Selected<T(!new)>(table: set<T>, view: T -> Row, clauses: seq<Clause>, args: seq<Value>): set<T> {
    set r | r in table && Matches(clauses, args, view(r))
  }

  /** ORDER BY and LIMIT: the first rows in ascending order; ties may fall either way. */
  ghost predicate IsAnswer<T(!new)>(rows: seq<T>, selected: set<T>, key: T -> int, limit: int) {
    && |rows| <= limit
    && (forall i, j :: 0 <= i < j < |rows| ==> rows[i] != rows[j] && key(rows[i]) <= key(rows[j]))
    && (forall r :: r in rows ==> r in selected)
    && (forall r :: r in selected && r !in rows ==>
          |rows| == limit && forall i :: 0 <= i < |rows| ==> key(rows[i]) <= key(r))
  }

  lemma LeastExists<T(!new)>(rows: set<T>, key: T -> int)
    requires rows != {}
    ensures exists r :: r in rows && forall x :: x in rows ==> key(r) <= key(x)
  {
    var r :| r in rows;
    if rows != {r} {
      LeastExists(rows - {r}, key);
      var least :| least in rows - {r} && forall x :: x in rows - {r} ==> key(least) <= key(x);
      var winner := if key(r) <= key(least) then r else least;
      assert forall x :: x in rows ==> x == r || x in rows - {r};
      assert winner in rows && forall x :: x in rows ==> key(winner) <= key(x);
    }
  }

  /** The ordering column of every row is an identifier, and `key` is its rank. */
  ghost predicate OrderedBy<T(!new)>(table: set<T>, view: T -> Row, key: T -> int, c: Column) {
    forall r :: r in table ==>
      Resolve(view(r), c).Some? && Resolve(view(r), c).value.UuidValue? && key(r) == Rank(Resolve(view(r), c).value.id)
  }

  /** The database: rows satisfying every clause, in order, as many as the limit allows. */
  method Execute<T(==,!new)>(table: set<T>, view: T -> Row, key: T -> int, q: Select, args: seq<Value>)
    returns (rows: seq<T>)
    requires WellFormed(q, args) && args[q.limitPlaceholder - 1].number >= 0
    requires OrderedBy(table, view, key, q.orderBy)
    ensures IsAnswer(rows, Selected(table, view, q.clauses, args), key, args[q.limitPlaceholder - 1].number)
  {
    var limit := args[q.limitPlaceholder - 1].number;
    var selected := Selected(table, view, q.clauses, args);
    var rest := selected;
    rows := [];
    while |rows| < limit && rest != {}
      invariant |rows| <= limit
      invariant forall i, j :: 0 <= i < j < |rows| ==> rows[i] != rows[j] && key(rows[i]) <= key(rows[j])
      invariant forall r :: r in rows ==> r in selected && r !in rest
      invariant forall r :: r in selected ==> r in rows || r in rest
      invariant rest <= selected
      invariant forall r, i :: r in rest && 0 <= i < |rows| ==> key(rows[i]) <= key(r)
      decreases rest
    {
      LeastExists(rest, key);
      var r :| r in rest && forall x :: x in rest ==> key(r) <= key(x);
      rows := rows + [r];
      rest := rest - {r};
    }
  }

  function CursorKey(cursor: Option<PageCursor>): Option<int> {
    match cursor
    case None => None
    case Some(c) => Some(Rank(c.afterId))
  }

  /** An answer over rows with distinct keys is the page in the direct sense. */
  lemma AnswerIsFirst<T(!new)>(rows: seq<T>, above: set<T>, key: T -> int, limit: nat)
    requires IsAnswer(rows, above, key, limit) && Keyed(above, key)
    ensures FirstOf(rows, above, key, limit)
  {
  }

  /** Cutting the look-ahead row off a page of limit + 1 gives the page of limit,
      and the row cut off is the proof that more follow. */
  lemma CutLookAhead<T(!new)>(rows: seq<T>, items: seq<T>, above: set<T>, key: T -> int, limit: nat)
    requires FirstOf(rows, above, key, limit + 1)
    requires |items| <= |rows| && items == rows[..|items|]
    requires |items| == limit || (|rows| <= limit && items == rows)
    ensures FirstOf(items, above, key, limit)
    ensures |rows| > limit <==> exists t :: t in above && t !in items
  {
    assert forall i :: 0 <= i < |items| ==> items[i] == rows[i];
    forall t | t in above && t !in items
      ensures |items| == limit && |rows| > limit && forall i :: 0 <= i < |items| ==> key(items[i]) < key(t)
    {
      if t in rows {
        var k :| 0 <= k < |rows| && rows[k] == t;
        assert k >= |items|;
      }
    }
    if |rows| > limit {
      assert rows[limit] in rows;
      assert rows[limit] in above;
      assert rows[limit] !in items;
    }
  }

  /** Cursor and clauses compiled into one WHERE select the clauses' rows above the cursor. */
  lemma CompiledIsAbove<T(!new)>(table: set<T>, view: T -> Row, key: T -> int, clauses: seq<Clause>, args: seq<Value>,
                                 cursor: Option<PageCursor>, q: Select, allArgs: seq<Value>)
    requires OrderedBy(table, view, key, q.orderBy)
    requires forall r :: Matches(q.clauses, allArgs, r) <==> Matches(clauses, args, r) && IsAbove(r, q.orderBy, cursor)
    ensures Selected(table, view, q.clauses, allArgs)
         == Above(Selected(table, view, clauses, args), key, CursorKey(cursor))
  {
  }

  method ListEntities<T(==,!new)>(table: set<T>, view: T -> Row, key: T -> int, clauses: seq<Clause>, args: seq<Value>,
                                  cursor: Option<PageCursor>, pageSize: Int32, cursorColumn: Column)
    returns (items: seq<T>, nextCursor: Option<PageCursor>)
    requires WellBound(clauses, args)
    requires OrderedBy(table, view, key, cursorColumn) && Keyed(Selected(table, view, clauses, args), key)
    ensures IsPage(Selected(table, view, clauses, args), key, CursorKey(cursor),
                   NormalizePageSize(pageSize), items, CursorKey(nextCursor))
  {
    var query, allArgs, limit := BuildListEntitiesQuery(clauses, args, cursor, pageSize, cursorColumn);
    var rows := Execute(table, view, key, query, allArgs);
    ghost var above := Above(Selected(table, view, clauses, args), key, CursorKey(cursor));
    CompiledIsAbove(table, view, key, clauses, args, cursor, query, allArgs);
    AnswerIsFirst(rows, above, key, limit + 1);
    assert forall r :: r in rows ==> r in above && r in table;
    items, nextCursor := ScanPage(rows, view, key, limit, cursorColumn);
    CutLookAhead(rows, items, above, key, limit);
  }

  /** The row loop: at most `limit` rows are kept; one more row means there is a next page. */
  method ScanPage<T(!new)>(rows: seq<T>, view: T -> Row, key: T -> int, limit: Int32, cursorColumn: Column)
    returns (items: seq<T>, nextCursor: Option<PageCursor>)
    requires limit > 0
    requires forall i :: 0 <= i < |rows| ==>
               && Resolve(view(rows[i]), cursorColumn).Some?
               && Resolve(view(rows[i]), cursorColumn).value.UuidValue?
               && key(rows[i]) == Rank(Resolve(view(rows[i]), cursorColumn).value.id)
    ensures items == rows[..if |rows| < limit then |rows| else limit]
    ensures nextCursor.Some? <==> |rows| > limit
    ensures nextCursor.Some? ==> Rank(nextCursor.value.afterId) == key(items[|items| - 1])
  {
    items := [];
    nextCursor := None;
    var lastId: Option<Uuid> := None;
    var hasMore := false;
    var next := 0;
    while next < |rows|
      invariant 0 <= next <= |rows| && next <= limit
      invariant items == rows[..next]
      invariant next > 0 ==> lastId.Some? && Rank(lastId.value) == key(rows[next - 1])
      invariant !hasMore
    {
      if |items| == limit {
        hasMore := true;
        break;
      }
      items := items + [rows[next]];
      lastId := Some(Resolve(view(rows[next]), cursorColumn).value.id);
      next := next + 1;
    }
    if hasMore {
      nextCursor := Some(PageCursor(lastId.value));
    }
  }

  // ----- updates -------------------------------------------------------------------

  /** `field = $n`. */
  datatype SetClause = SetClause(field: Field, placeholder: nat)

  /** UPDATE groups SET ... WHERE id = $n; the update time is not modelled. */
  datatype Update = Update(sets: seq<SetClause>, idPlaceholder: nat)

  function SetField(g: Group, f: Field, v: Value): Group {
    match (f, v)
    case (Name, TextValue(s)) => g.(name := s)
    case (Description, TextValue(s)) => g.(description := s)
    case _ => g
  }

  function SetFields(g: Group, sets: seq<SetClause>, args: seq<Value>): Group
    requires forall i :: 0 <= i < |sets| ==> 1 <= sets[i].placeholder <= |args|
  {
    if sets == [] then g
    else
      var last := sets[|sets| - 1];
      SetField(SetFields(g, sets[..|sets| - 1], args), last.field, args[last.placeholder - 1])
  }

  predicate WellFormedUpdate(u: Update, args: seq<Value>) {
    && u.idPlaceholder == |args| == |u.sets| + 1
    && args[|u.sets|].UuidValue?
    && forall i :: 0 <= i < |u.sets| ==> u.sets[i].placeholder == i + 1
  }

  class UpdateBuilder {
    var setClauses: seq<SetClause>
    var args: seq<Value>

    predicate Valid()
      reads this
    {
      |setClauses| == |args| && forall i :: 0 <= i < |setClauses| ==> setClauses[i].placeholder == i + 1
    }

    constructor ()
      ensures Valid() && setClauses == [] && args == []
    {
      setClauses, args := [], [];
    }

    /** What the assignments collected so far make of a row. */
    function Effect(g: Group): Group
      requires Valid()
      reads this
    {
      SetFields(g, setClauses, args)
    }

    method Add(field: Field, value: Value)
      requires Valid()
      modifies this
      ensures Valid() && |args| == old(|args|) + 1
      ensures forall g :: Effect(g) == SetField(old(Effect(g)), field, value)
    {
      var placeholder := |args| + 1;
      ghost var sets, before := setClauses, args;
      setClauses := setClauses + [SetClause(field, placeholder)];
      args := args + [value];
      assert setClauses[..|setClauses| - 1] == sets;
      forall g ensures SetFields(g, sets, args) == SetFields(g, sets, before) {
        SetFieldsExtraArgument(g, sets, before, value);
      }
    }

    predicate Empty()
      reads this
    {
      |setClauses| == 0
    }

    method Build(id: Uuid) returns (u: Update, allArgs: seq<Value>)
      requires Valid()
      ensures WellFormedUpdate(u, allArgs)
      ensures allArgs[u.idPlaceholder - 1] == UuidValue(id)
      ensures forall g :: SetFields(g, u.sets, allArgs) == Effect(g)
    {
      allArgs := args + [UuidValue(id)];
      u := Update(setClauses, |allArgs|);
      forall g ensures SetFields(g, setClauses, allArgs) == SetFields(g, setClauses, args) {
        SetFieldsExtraArgument(g, setClauses, args, UuidValue(id));
      }
    }
  }

  lemma {:induction false} SetFieldsExtraArgument(g: Group, sets: seq<SetClause>, args: seq<Value>, extra: Value)
    requires forall i :: 0 <= i < |sets| ==> 1 <= sets[i].placeholder <= |args|
    ensures SetFields(g, sets, args + [extra]) == SetFields(g, sets, args)
  {
    if sets != [] {
      SetFieldsExtraArgument(g, sets[..|sets| - 1], args, extra);
    }
  }
}
