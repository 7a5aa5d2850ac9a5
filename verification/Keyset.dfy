/** Keyset pagination as the client sees it: what one page is, and what
    following cursors page by page returns while the table changes underneath.
    A row's key is the number its identifier stands for; a cursor is the key of
    the last row returned. */
module Keyset {
  import opened Wrappers

  /** No two rows of the table share a key. */
  ghost predicate Keyed<T(!new)>(table: set<T>, key: T -> int) {
    forall a, b :: a in table && b in table && key(a) == key(b) ==> a == b
  }

  ghost predicate Ascending<T(!new)>(items: seq<T>, key: T -> int) {
    forall i, j :: 0 <= i < j < |items| ==> key(items[i]) < key(items[j])
  }

  /** Filter, sort, take: the first `limit` rows of the table in key order, or
      all of them when there are fewer. */
  ghost predicate FirstOf<T(!new)>(items: seq<T>, table: set<T>, key: T -> int, limit: nat) {
    && |items| <= limit
    && Ascending(items, key)
    && (forall t :: t in items ==> t in table)
    && (forall t :: t in table && t !in items ==>
          |items| == limit && forall i :: 0 <= i < |items| ==> key(items[i]) < key(t))
  }

  ghost function Above<T(!new)>(table: set<T>, key: T -> int, cursor: Option<int>): set<T> {
    set t | t in table && (cursor.Some? ==> cursor.value < key(t))
  }

  ghost predicate IsPage<T(!new)>(
    table: set<T>, key: T -> int, cursor: Option<int>, limit: nat, items: seq<T>, next: Option<int>)
  {
    && FirstOf(items, Above(table, key, cursor), key, limit)
    && (next.Some? <==> exists t :: t in Above(table, key, cursor) && t !in items)
    && (next.Some? ==> items != [] && next.value == key(items[|items| - 1]))
  }

  // ----- a page is determined -------------------------------------------------------

  lemma NotBelow<T(!new)>(a: seq<T>, b: seq<T>, table: set<T>, key: T -> int, limit: nat, i: nat)
    requires FirstOf(a, table, key, limit) && FirstOf(b, table, key, limit)
    requires i < |a| && i < |b| && a[..i] == b[..i]
    ensures key(a[i]) <= key(b[i])
  {
  }

  lemma {:induction false} SamePrefix<T(!new)>(
    a: seq<T>, b: seq<T>, table: set<T>, key: T -> int, limit: nat, n: nat)
    requires Keyed(table, key) && FirstOf(a, table, key, limit) && FirstOf(b, table, key, limit)
    requires n <= |a| && n <= |b|
    ensures a[..n] == b[..n]
  {
    if n > 0 {
      SamePrefix(a, b, table, key, limit, n - 1);
      NotBelow(a, b, table, key, limit, n - 1);
      NotBelow(b, a, table, key, limit, n - 1);
      assert a[n - 1] in a && b[n - 1] in b;
      assert a[..n] == a[..n - 1] + [a[n - 1]] && b[..n] == b[..n - 1] + [b[n - 1]];
    }
  }

  lemma ShorterOnlyWhenFull<T(!new)>(a: seq<T>, b: seq<T>, table: set<T>, key: T -> int, limit: nat)
    requires FirstOf(a, table, key, limit) && Ascending(b, key) && forall t :: t in b ==> t in table
    requires |a| <= |b| && a == b[..|a|]
    ensures |a| < |b| ==> |a| == limit
  {
    assert forall k :: 0 <= k < |a| ==> a[k] == b[..|a|][k] == b[k];
    if |a| < |b| {
      assert b[|a|] in b && b[|a|] !in a;
    }
  }

  /** Any two answers of the database to the same request agree. */
  lemma FirstOfUnique<T(!new)>(a: seq<T>, b: seq<T>, table: set<T>, key: T -> int, limit: nat)
    requires Keyed(table, key) && FirstOf(a, table, key, limit) && FirstOf(b, table, key, limit)
    ensures a == b
    decreases |a| > |b|
  {
    if |a| <= |b| {
      SamePrefix(a, b, table, key, limit, |a|);
      assert a[..|a|] == a;
      ShorterOnlyWhenFull(a, b, table, key, limit);
      assert b[..|a|] == b;
    } else {
      FirstOfUnique(b, a, table, key, limit);
    }
  }

  // ----- following cursors --------------------------------------------------------

  /** One request of a traversal: the table it found, the page size it asked
      for and the page it got. */
  datatype Fetch<T> = Fetch(table: set<T>, limit: nat, items: seq<T>, next: Option<int>)

  function CursorAt<T>(fs: seq<Fetch<T>>, i: nat): Option<int>
    requires i <= |fs|
  {
    if i == 0 then None else fs[i - 1].next
  }

  ghost predicate IsTraversal<T(!new)>(fs: seq<Fetch<T>>, key: T -> int) {
    && (forall i :: 0 <= i < |fs| ==>
          IsPage(fs[i].table, key, CursorAt(fs, i), fs[i].limit, fs[i].items, fs[i].next))
    && (forall i :: 0 <= i < |fs| - 1 ==> fs[i].next.Some?)
  }

  ghost predicate IsFullTraversal<T(!new)>(fs: seq<Fetch<T>>, key: T -> int) {
    IsTraversal(fs, key) && fs != [] && fs[|fs| - 1].next == None
  }

  function Returned<T>(fs: seq<Fetch<T>>): seq<T> {
    if fs == [] then [] else Returned(fs[..|fs| - 1]) + fs[|fs| - 1].items
  }

  lemma FrontIsTraversal<T(!new)>(fs: seq<Fetch<T>>, key: T -> int)
    requires IsTraversal(fs, key) && fs != []
    ensures IsTraversal(fs[..|fs| - 1], key)
    ensures CursorAt(fs[..|fs| - 1], |fs| - 1) == CursorAt(fs, |fs| - 1)
  {
    var front := fs[..|fs| - 1];
    forall i | 0 <= i < |front|
      ensures IsPage(front[i].table, key, CursorAt(front, i), front[i].limit, front[i].items, front[i].next)
    {
      assert CursorAt(front, i) == CursorAt(fs, i);
    }
  }

  /** A page starts above the cursor it was asked for and ends at the one it returns. */
  lemma PageBetweenCursors<T(!new)>(f: Fetch<T>, key: T -> int, cursor: Option<int>)
    requires IsPage(f.table, key, cursor, f.limit, f.items, f.next)
    ensures Ascending(f.items, key)
    ensures cursor.Some? ==> forall t :: t in f.items ==> cursor.value < key(t)
    ensures f.next.Some? ==> forall t :: t in f.items ==> key(t) <= f.next.value
    ensures f.next.Some? && cursor.Some? ==> cursor.value < f.next.value
  {
  }

  lemma AscendingConcat<T(!new)>(a: seq<T>, b: seq<T>, key: T -> int)
    requires Ascending(a, key) && Ascending(b, key)
    requires forall x, y :: x in a && y in b ==> key(x) < key(y)
    ensures Ascending(a + b, key)
  {
  }

  /** Whatever is inserted or deleted between requests, keys strictly increase
      over all pages taken together, up to the next cursor. */
  lemma {:induction false} TraversalAscends<T(!new)>(fs: seq<Fetch<T>>, key: T -> int)
    requires IsTraversal(fs, key)
    ensures Ascending(Returned(fs), key)
    ensures CursorAt(fs, |fs|).Some? ==> forall t :: t in Returned(fs) ==> key(t) <= CursorAt(fs, |fs|).value
  {
    if fs != [] {
      var n := |fs| - 1;
      FrontIsTraversal(fs, key);
      TraversalAscends(fs[..n], key);
      PageBetweenCursors(fs[n], key, CursorAt(fs, n));
      if n > 0 {
        assert CursorAt(fs, n).Some?;
      }
      AscendingConcat(Returned(fs[..n]), fs[n].items, key);
    }
  }

  /** The key is carried by some row of every table the traversal met. */
  ghost predicate Throughout<T(!new)>(fs: seq<Fetch<T>>, key: T -> int, k: int) {
    forall i :: 0 <= i < |fs| ==> Carries(fs[i].table, key, k)
  }

  ghost predicate Carries<T(!new)>(table: set<T>, key: T -> int, k: int) {
    exists t :: t in table && key(t) == k
  }

  lemma PageReaches<T(!new)>(f: Fetch<T>, key: T -> int, cursor: Option<int>, k: int)
    requires IsPage(f.table, key, cursor, f.limit, f.items, f.next) && Carries(f.table, key, k)
    requires cursor.Some? ==> cursor.value < k
    ensures (exists t :: t in f.items && key(t) == k) || (f.next.Some? && f.next.value < k)
  {
  }

  lemma {:induction false} TraversalReaches<T(!new)>(fs: seq<Fetch<T>>, key: T -> int, k: int)
    requires IsTraversal(fs, key) && Throughout(fs, key, k)
    ensures || (exists t :: t in Returned(fs) && key(t) == k)
            || fs == []
            || (CursorAt(fs, |fs|).Some? && CursorAt(fs, |fs|).value < k)
  {
    if fs != [] {
      var n := |fs| - 1;
      FrontIsTraversal(fs, key);
      TraversalReaches(fs[..n], key, k);
      if t :| t in Returned(fs[..n]) && key(t) == k {
        assert t in Returned(fs);
      } else {
        PageReaches(fs[n], key, CursorAt(fs, n), k);
        if t :| t in fs[n].items && key(t) == k {
          assert t in Returned(fs);
        }
      }
    }
  }

  /** A row that matches throughout a complete traversal is returned exactly once. */
  lemma ReturnedExactlyOnce<T(!new)>(fs: seq<Fetch<T>>, key: T -> int, k: int)
    requires IsFullTraversal(fs, key) && Throughout(fs, key, k)
    ensures exists i :: 0 <= i < |Returned(fs)| && key(Returned(fs)[i]) == k
                     && forall j :: 0 <= j < |Returned(fs)| && key(Returned(fs)[j]) == k ==> j == i
  {
    TraversalReaches(fs, key, k);
    TraversalAscends(fs, key);
    var all := Returned(fs);
    var t :| t in all && key(t) == k;
    var i :| 0 <= i < |all| && all[i] == t;
    assert forall j :: 0 <= j < |all| && j != i ==> key(all[j]) != key(all[i]);
  }

  lemma {:induction false} ReturnedFromTable<T(!new)>(fs: seq<Fetch<T>>, key: T -> int, table: set<T>)
    requires IsTraversal(fs, key) && forall i :: 0 <= i < |fs| ==> fs[i].table == table
    ensures forall t :: t in Returned(fs) ==> t in table
  {
    if fs != [] {
      FrontIsTraversal(fs, key);
      ReturnedFromTable(fs[..|fs| - 1], key, table);
    }
  }

  /** With no change underneath, the pages joined together are the whole table in key order. */
  lemma UnchangedTraversal<T(!new)>(fs: seq<Fetch<T>>, key: T -> int, table: set<T>)
    requires IsFullTraversal(fs, key) && Keyed(table, key)
    requires forall i :: 0 <= i < |fs| ==> fs[i].table == table
    ensures Ascending(Returned(fs), key)
    ensures forall t :: t in Returned(fs) <==> t in table
  {
    TraversalAscends(fs, key);
    ReturnedFromTable(fs, key, table);
    forall t | t in table ensures t in Returned(fs) {
      assert Throughout(fs, key, key(t));
      TraversalReaches(fs, key, key(t));
    }
  }

  // ----- loops that follow cursors --------------------------------------------------

  /** What a loop that follows cursors through an unchanged table has collected. */
  ghost predicate Following<T(!new)>(
    fs: seq<Fetch<T>>, key: T -> int, table: set<T>, items: seq<T>, cursor: Option<int>)
  {
    && IsTraversal(fs, key) && Returned(fs) == items && CursorAt(fs, |fs|) == cursor
    && forall i :: 0 <= i < |fs| ==> fs[i].table == table
  }

  lemma NothingFetched<T(!new)>(key: T -> int, table: set<T>)
    ensures Following([], key, table, [], None)
  {
  }

  lemma ReturnedOneMore<T>(fs: seq<Fetch<T>>, f: Fetch<T>)
    ensures Returned(fs + [f]) == Returned(fs) + f.items
  {
  }

  lemma ExtendTraversal<T(!new)>(fs: seq<Fetch<T>>, f: Fetch<T>, key: T -> int)
    requires IsTraversal(fs, key) && (fs == [] || CursorAt(fs, |fs|).Some?)
    requires IsPage(f.table, key, CursorAt(fs, |fs|), f.limit, f.items, f.next)
    ensures IsTraversal(fs + [f], key)
  {
    hide IsPage, Returned;
    var fs' := fs + [f];
    forall i | 0 <= i < |fs'|
      ensures IsPage(fs'[i].table, key, CursorAt(fs', i), fs'[i].limit, fs'[i].items, fs'[i].next) {
      assert CursorAt(fs', i) == CursorAt(fs, i);
      if i < |fs| {
        assert fs'[i] == fs[i];
      }
    }
  }

  /** Every page that promises another one leaves strictly fewer rows above its cursor. */
  lemma FewerAbove<T(!new)>(f: Fetch<T>, key: T -> int, cursor: Option<int>)
    requires IsPage(f.table, key, cursor, f.limit, f.items, f.next)
    ensures f.next.Some? ==> Above(f.table, key, f.next) < Above(f.table, key, cursor)
  {
  }

  lemma FollowCursor<T(!new)>(fs: seq<Fetch<T>>, key: T -> int, table: set<T>, items: seq<T>, cursor: Option<int>,
                              f: Fetch<T>)
    requires Following(fs, key, table, items, cursor) && (fs == [] || cursor.Some?)
    requires f.table == table && IsPage(table, key, cursor, f.limit, f.items, f.next)
    ensures Following(fs + [f], key, table, items + f.items, f.next)
    ensures f.next.Some? ==> Above(table, key, f.next) < Above(table, key, cursor)
  {
    hide IsTraversal, IsPage, Above, Returned;
    ExtendTraversal(fs, f, key);
    ReturnedOneMore(fs, f);
    FewerAbove(f, key, cursor);
  }

  lemma FollowedToTheEnd<T(!new)>(fs: seq<Fetch<T>>, key: T -> int, table: set<T>, items: seq<T>)
    requires Following(fs, key, table, items, None) && fs != [] && Keyed(table, key)
    ensures Ascending(items, key)
    ensures forall t :: t in items <==> t in table
  {
    UnchangedTraversal(fs, key, table);
  }
}
