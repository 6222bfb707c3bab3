/** Following the next cursors of the listings to the end. */
module PageWalks {
  import opened Wrappers
  import opened Ordering
  import opened Calendar
  import opened Timestamps
  import opened Pagination

  datatype Walk = Walk(items: seq<Row>, finished: bool)

  /** Reads one page of each table in turn, from the cursor on, until there is no next cursor. The
      table may change between two pages. */
  function Follow(
    tables: seq<seq<Row>>, q: Query, decode: Option<string> -> Key, cursor: Option<string>, limit: nat): Walk
    requires limit >= 1
    decreases |tables|
  {
    if tables == [] then Walk([], false)
    else
      var page := PageAfter(tables[0], q, decode(cursor), limit);
      if page.next.None? then Walk(page.items, true)
      else
        var rest := Follow(tables[1..], q, decode, page.next, limit);
        Walk(page.items + rest.items, rest.finished)
  }

  /** Ids are primary keys, and the cursor after a row reads back as the row's key. */
  ghost predicate ReadableTable(table: seq<Row>, decode: Option<string> -> Key) {
    DistinctIds(table) && forall row :: row in table ==> decode(Some(CursorText(row))) == KeyOf(row)
  }

  ghost predicate Readable(tables: seq<seq<Row>>, decode: Option<string> -> Key) {
    forall i :: 0 <= i < |tables| ==> ReadableTable(tables[i], decode)
  }

  ghost predicate Below(rows: seq<Row>, q: Query, bound: Key) {
    forall row :: row in rows ==> Matches(q, row) && KeyLess(KeyOf(row), bound)
  }

  /** One page of a walk, and what its next cursor reads as. */
  lemma OnePage(table: seq<Row>, q: Query, decode: Option<string> -> Key, cursor: Option<string>, limit: nat)
    returns (page: Page)
    requires limit >= 1 && ReadableTable(table, decode)
    ensures page == PageAfter(table, q, decode(cursor), limit)
    ensures Descending(page.items) && Below(page.items, q, decode(cursor))
    ensures forall row :: row in page.items ==> row in table
    ensures page.next.None? ==> forall row :: row in table && Listed(q, decode(cursor), row) ==> row in page.items
    ensures page.next.Some? ==>
              && |page.items| == limit
              && decode(page.next) == KeyOf(page.items[limit - 1])
              && Separates(table, q, decode(cursor), page.items, decode(page.next))
  {
    page := PageAfter(table, q, decode(cursor), limit);
    PageIsExact(table, q, decode(cursor), limit);
    if page.next.Some? {
      assert page.items[limit - 1] in page.items;
    }
  }

  /** The first page of a walk and the walk from its next cursor on. */
  lemma FirstPage(
    tables: seq<seq<Row>>, q: Query, decode: Option<string> -> Key, cursor: Option<string>, limit: nat)
    returns (page: Page, rest: Walk)
    requires limit >= 1 && tables != [] && Readable(tables, decode)
    ensures Descending(page.items) && Below(page.items, q, decode(cursor)) && Readable(tables[1..], decode)
    ensures page.next.None? ==> Follow(tables, q, decode, cursor, limit) == Walk(page.items, true)
    ensures page.next.Some? ==>
              && |page.items| == limit && decode(page.next) == KeyOf(page.items[limit - 1])
              && rest == Follow(tables[1..], q, decode, page.next, limit)
              && Follow(tables, q, decode, cursor, limit) == Walk(page.items + rest.items, rest.finished)
  {
    assert ReadableTable(tables[0], decode);
    page := OnePage(tables[0], q, decode, cursor, limit);
    rest := Follow(tables[1..], q, decode, page.next, limit);
  }

  lemma PagesJoin(front: seq<Row>, rest: seq<Row>, q: Query, bound: Key)
    requires front != [] && Descending(front) && Descending(rest)
    requires Below(front, q, bound) && Below(rest, q, KeyOf(front[|front| - 1]))
    ensures Descending(front + rest) && Below(front + rest, q, bound)
  {
    var all, last := front + rest, front[|front| - 1];
    forall i, j | 0 <= i < j < |all|
      ensures KeyLess(KeyOf(all[j]), KeyOf(all[i]))
    {
      if i < |front| <= j {
        assert all[j] in rest;
        if i < |front| - 1 {
          KeyLessIsTransitive(KeyOf(all[j]), KeyOf(last), KeyOf(all[i]));
        }
      }
    }
    forall row | row in all
      ensures Matches(q, row) && KeyLess(KeyOf(row), bound)
    {
      if row in rest {
        assert last in front;
        KeyLessIsTransitive(KeyOf(row), KeyOf(last), bound);
      }
    }
  }

  /** Even if the table changes between pages, a walk is strictly descending, so it lists nothing
      twice, and lists only rows of the user before the cursor. */
  lemma {:induction false} WalksDescend(
    tables: seq<seq<Row>>, q: Query, decode: Option<string> -> Key, cursor: Option<string>, limit: nat)
    requires limit >= 1 && Readable(tables, decode)
    ensures var items := Follow(tables, q, decode, cursor, limit).items;
            Descending(items) && Below(items, q, decode(cursor))
    decreases |tables|
  {
    if tables != [] {
      var page, rest := FirstPage(tables, q, decode, cursor, limit);
      if page.next.Some? {
        WalksDescend(tables[1..], q, decode, page.next, limit);
        PagesJoin(page.items, rest.items, q, decode(cursor));
      }
    }
  }

  /** A finished walk lists every row of the user before the cursor that was there all the time. */
  lemma {:induction false} WalksMissNothing(
    tables: seq<seq<Row>>, q: Query, decode: Option<string> -> Key, cursor: Option<string>, limit: nat, row: Row)
    requires limit >= 1 && Readable(tables, decode)
    requires Follow(tables, q, decode, cursor, limit).finished
    requires Listed(q, decode(cursor), row) && forall i :: 0 <= i < |tables| ==> row in tables[i]
    ensures row in Follow(tables, q, decode, cursor, limit).items
    decreases |tables|
  {
    assert ReadableTable(tables[0], decode) && row in tables[0];
    var page := OnePage(tables[0], q, decode, cursor, limit);
    if page.next.Some? {
      if row !in page.items {
        assert Listed(q, decode(page.next), row);
        WalksMissNothing(tables[1..], q, decode, page.next, limit, row);
      }
    }
  }

  // A table that does not change.

  lemma {:induction false} FewerRemain(table: seq<Row>, q: Query, cursor: Key, row: Row)
    requires KeyLess(KeyOf(row), cursor)
    ensures |Matching(table, q, KeyOf(row))| <= |Matching(table, q, cursor)|
    ensures row in table && Matches(q, row) ==> |Matching(table, q, KeyOf(row))| < |Matching(table, q, cursor)|
  {
    if table != [] {
      var last := table[|table| - 1];
      assert table == table[..|table| - 1] + [last];
      FewerRemain(table[..|table| - 1], q, cursor, row);
      KeyLessIsStrict(KeyOf(row), KeyOf(row));
      if Listed(q, KeyOf(row), last) {
        KeyLessIsTransitive(KeyOf(last), KeyOf(row), cursor);
      }
    }
  }

  /** A walk over an unchanging table ends. */
  lemma {:induction false} WalksEnd(
    tables: seq<seq<Row>>, table: seq<Row>, q: Query, decode: Option<string> -> Key, cursor: Option<string>, limit: nat)
    requires limit >= 1 && Readable(tables, decode)
    requires forall i :: 0 <= i < |tables| ==> tables[i] == table
    requires |tables| > |Matching(table, q, decode(cursor))|
    ensures Follow(tables, q, decode, cursor, limit).finished
    decreases |tables|
  {
    assert tables[0] == table && ReadableTable(tables[0], decode);
    var page := OnePage(table, q, decode, cursor, limit);
    if page.next.Some? {
      var last := page.items[limit - 1];
      assert last in page.items;
      FewerRemain(table, q, decode(cursor), last);
      WalksEnd(tables[1..], table, q, decode, page.next, limit);
    }
  }

  lemma {:induction false} DescendingIsUnique(a: seq<Row>, b: seq<Row>)
    requires Descending(a) && Descending(b)
    requires forall row :: row in a <==> row in b
    ensures a == b
  {
    assert (b != [] ==> b[0] in b) && (a != [] ==> a[0] in a);
    if a != [] {
      HeadsAgree(a, b);
      assert a == [a[0]] + a[1..] && b == [b[0]] + b[1..];
      forall row
        ensures row in a[1..] <==> row in b[1..]
      {
        HeadIsOnlyFirst(a, row);
        HeadIsOnlyFirst(b, row);
      }
      DescendingIsUnique(a[1..], b[1..]);
    }
  }

  lemma HeadIsOnlyFirst(a: seq<Row>, row: Row)
    requires Descending(a) && a != []
    ensures row in a[1..] <==> row in a && row != a[0]
  {
    if row in a[1..] {
      var i :| 0 <= i < |a| - 1 && a[1..][i] == row;
      assert a[i + 1] == row;
      KeyLessIsStrict(KeyOf(a[0]), KeyOf(row));
    }
    if row in a && row != a[0] {
      var i :| 0 <= i < |a| && a[i] == row;
      assert a[1..][i - 1] == row;
    }
  }

  lemma HeadsAgree(a: seq<Row>, b: seq<Row>)
    requires Descending(a) && Descending(b) && a != [] && b != []
    requires a[0] in b && b[0] in a
    ensures a[0] == b[0]
  {
    var i :| 0 <= i < |a| && a[i] == b[0];
    var j :| 0 <= j < |b| && b[j] == a[0];
    if i > 0 && j > 0 {
      KeyLessIsStrict(KeyOf(a[0]), KeyOf(b[0]));
    }
  }

  /** Following the cursors over an unchanging table lists, whatever the page size, exactly the rows
      of the user before the first cursor, each once, newest first, and then stops. */
  lemma FollowingListsAll(
    tables: seq<seq<Row>>, table: seq<Row>, q: Query, decode: Option<string> -> Key, cursor: Option<string>, limit: nat)
    requires limit >= 1 && Readable(tables, decode)
    requires |tables| > |table| && forall i :: 0 <= i < |tables| ==> tables[i] == table
    ensures Follow(tables, q, decode, cursor, limit) == Walk(Before(table, q, decode(cursor)), true)
  {
    var walk := Follow(tables, q, decode, cursor, limit);
    MatchingIsShorter(table, q, decode(cursor));
    WalksEnd(tables, table, q, decode, cursor, limit);
    WalksDescend(tables, q, decode, cursor, limit);
    assert tables[0] == table && ReadableTable(tables[0], decode);
    BeforeIsExact(table, q, decode(cursor));
    forall row
      ensures row in walk.items <==> row in Before(table, q, decode(cursor))
    {
      if row in walk.items {
        FollowedRowsExist(tables, table, q, decode, cursor, limit, row);
      }
      if row in Before(table, q, decode(cursor)) {
        WalksMissNothing(tables, q, decode, cursor, limit, row);
      }
    }
    DescendingIsUnique(walk.items, Before(table, q, decode(cursor)));
  }

  lemma {:induction false} MatchingIsShorter(table: seq<Row>, q: Query, cursor: Key)
    ensures |Matching(table, q, cursor)| <= |table|
  {
    if table != [] {
      MatchingIsShorter(table[..|table| - 1], q, cursor);
    }
  }

  lemma {:induction false} FollowedRowsExist(
    tables: seq<seq<Row>>, table: seq<Row>, q: Query, decode: Option<string> -> Key, cursor: Option<string>, limit: nat,
    row: Row)
    requires limit >= 1 && Readable(tables, decode)
    requires forall i :: 0 <= i < |tables| ==> tables[i] == table
    requires row in Follow(tables, q, decode, cursor, limit).items
    ensures row in table
    decreases |tables|
  {
    assert tables[0] == table && ReadableTable(tables[0], decode);
    var page := OnePage(table, q, decode, cursor, limit);
    if row !in page.items {
      FollowedRowsExist(tables[1..], table, q, decode, page.next, limit, row);
    }
  }
}
