/** Keyset pagination of logs and notification records. */
module Pagination {
  import opened Wrappers
  import opened Ordering
  import opened Calendar
  import opened Timestamps

  const LOG_CURSOR_MAX_TS := "9999-12-31T23:59:59Z"
  const NOTIFICATION_RECORD_CURSOR_MAX_TS := "9999-12-31T23:59:59.999999999Z"
  const CURSOR_MAX_ID := "zzzz"

  /** A row of either table; the id is the primary key, and only logs can be without a user. */
  datatype Row = Row(id: string, user: Option<string>, ts: string, level: string)

  /** A place in the listing order. */
  datatype Key = Key(ts: string, id: string)

  datatype Query = Query(user: string, level: Option<string>)

  datatype Page = Page(items: seq<Row>, next: Option<string>)

  function KeyOf(row: Row): Key {
    Key(row.ts, row.id)
  }

  predicate KeyLess(a: Key, b: Key) {
    Less(a.ts, b.ts) || (a.ts == b.ts && Less(a.id, b.id))
  }

  predicate Matches(q: Query, row: Row) {
    row.user == Some(q.user) && (q.level.Some? ==> row.level == q.level.value)
  }

  predicate Listed(q: Query, cursor: Key, row: Row) {
    Matches(q, row) && KeyLess(KeyOf(row), cursor)
  }

  predicate DistinctIds(table: seq<Row>) {
    forall i, j :: 0 <= i < j < |table| ==> table[i].id != table[j].id
  }

  predicate Descending(rows: seq<Row>) {
    forall i, j :: 0 <= i < j < |rows| ==> KeyLess(KeyOf(rows[j]), KeyOf(rows[i]))
  }

  // The order of keys.

  lemma KeyLessIsStrict(a: Key, b: Key)
    ensures !(KeyLess(a, b) && KeyLess(b, a))
    ensures KeyLess(a, b) || KeyLess(b, a) || a == b
    ensures a == b ==> !KeyLess(a, b)
  {
    LessIsStrict(a.ts, b.ts);
    LessIsStrict(a.id, b.id);
  }

  lemma KeyLessIsTransitive(a: Key, b: Key, c: Key)
    requires KeyLess(a, b) && KeyLess(b, c)
    ensures KeyLess(a, c)
  {
    if Less(a.ts, b.ts) && Less(b.ts, c.ts) {
      LessIsTransitive(a.ts, b.ts, c.ts);
    } else if a.ts == b.ts == c.ts {
      LessIsTransitive(a.id, b.id, c.id);
    }
  }

  function Newest(): (Row, Row) -> bool {
    (a, b) => KeyLess(KeyOf(b), KeyOf(a))
  }

  lemma NewestIsAnOrder()
    ensures StrictWeak(Newest())
  {
    forall a, b
      ensures !(Newest()(a, b) && Newest()(b, a))
    {
      KeyLessIsStrict(KeyOf(a), KeyOf(b));
    }
    forall a, b, c | Newest()(a, b) && Newest()(b, c)
      ensures Newest()(a, c)
    {
      KeyLessIsTransitive(KeyOf(c), KeyOf(b), KeyOf(a));
    }
    forall a, b, c | !Newest()(b, a) && !Newest()(c, b)
      ensures !Newest()(c, a)
    {
      KeyLessIsStrict(KeyOf(a), KeyOf(b));
      KeyLessIsStrict(KeyOf(b), KeyOf(c));
      if Newest()(c, a) {
        if KeyLess(KeyOf(b), KeyOf(a)) {
          KeyLessIsTransitive(KeyOf(b), KeyOf(a), KeyOf(c));
        }
      }
    }
  }

  // The statement behind a page.

  function Matching(table: seq<Row>, q: Query, cursor: Key): seq<Row> {
    if table == [] then []
    else
      var last := table[|table| - 1];
      Matching(table[..|table| - 1], q, cursor) + (if Listed(q, cursor, last) then [last] else [])
  }

  /** The rows of the user before the cursor, newest first. */
  function Before(table: seq<Row>, q: Query, cursor: Key): seq<Row> {
    Sort(Matching(table, q, cursor), Newest())
  }

  function Selected(table: seq<Row>, q: Query, cursor: Key, limit: nat): seq<Row> {
    var rows := Before(table, q, cursor);
    if |rows| <= limit then rows else rows[..limit]
  }

  lemma {:induction false} MatchingMembers(table: seq<Row>, q: Query, cursor: Key, row: Row)
    requires DistinctIds(table)
    ensures multiset(Matching(table, q, cursor))[row] == if row in table && Listed(q, cursor, row) then 1 else 0
  {
    if table != [] {
      var n := |table| - 1;
      assert table == table[..n] + [table[n]];
      MatchingMembers(table[..n], q, cursor, row);
    }
  }

  lemma OccursOnce<T>(items: seq<T>, i: nat, j: nat)
    requires i < j < |items| && items[i] == items[j]
    ensures multiset(items)[items[i]] >= 2
  {
    assert items == items[..j] + items[j..];
    assert items[..j][i] == items[i] && items[j..][0] == items[j];
    assert items[i] in multiset(items[..j]) && items[i] in multiset(items[j..]);
  }

  /** The rows before a cursor: each once, strictly descending. */
  lemma BeforeIsExact(table: seq<Row>, q: Query, cursor: Key)
    requires DistinctIds(table)
    ensures Descending(Before(table, q, cursor))
    ensures forall row :: row in Before(table, q, cursor) <==> row in table && Listed(q, cursor, row)
  {
    var rows := Before(table, q, cursor);
    NewestIsAnOrder();
    SortSorted(Matching(table, q, cursor), Newest());
    forall row
      ensures multiset(rows)[row] == if row in table && Listed(q, cursor, row) then 1 else 0
      ensures row in rows <==> row in table && Listed(q, cursor, row)
    {
      MatchingMembers(table, q, cursor, row);
      assert row in rows <==> row in multiset(rows);
    }
    forall i, j | 0 <= i < j < |rows|
      ensures KeyLess(KeyOf(rows[j]), KeyOf(rows[i]))
    {
      if rows[i] == rows[j] {
        OccursOnce(rows, i, j);
      } else {
        assert rows[i] in rows && rows[j] in rows;
        assert rows[i].id != rows[j].id;
        assert !Newest()(rows[j], rows[i]);
        KeyLessIsStrict(KeyOf(rows[i]), KeyOf(rows[j]));
      }
    }
  }

  // Cursors as text.

  function CursorText(row: Row): string {
    row.ts + ":" + row.id
  }

  /** Splits at the last colon. */
  function SplitFromRight(text: string): Option<(string, string)> {
    if text == "" then None
    else if text[|text| - 1] == ':' then Some((text[..|text| - 1], ""))
    else
      var rest := SplitFromRight(text[..|text| - 1]);
      if rest.None? then None else Some((rest.value.0, rest.value.1 + [text[|text| - 1]]))
  }

  /** A cursor splits back although its timestamp contains colons. */
  lemma {:induction false} CursorSplits(ts: string, id: string)
    requires ':' !in id
    ensures SplitFromRight(ts + ":" + id) == Some((ts, id))
  {
    var text := ts + ":" + id;
    if id == "" {
      assert text[..|text| - 1] == ts;
    } else {
      var n := |id| - 1;
      CursorSplits(ts, id[..n]);
      assert text[..|text| - 1] == ts + ":" + id[..n];
      assert id == id[..n] + [id[n]];
      assert text[|text| - 1] == id[n];
    }
  }

  function LogCursor(cursor: Option<string>): Key {
    var parts := if cursor.Some? then SplitFromRight(cursor.value) else None;
    if parts.Some? then Key(parts.value.0, parts.value.1) else Key(LOG_CURSOR_MAX_TS, CURSOR_MAX_ID)
  }

  predicate IsWhitespace(c: char) {
    c in {'\t', '\n', '\U{0B}', '\U{0C}', '\r', ' ', '\U{85}', '\U{A0}', '\U{1680}', '\U{2028}', '\U{2029}',
          '\U{202F}', '\U{205F}', '\U{3000}'} || '\U{2000}' <= c <= '\U{200A}'
  }

  function Trim(text: string): string
    decreases |text|
  {
    if text != "" && IsWhitespace(text[0]) then Trim(text[1..])
    else if text != "" && IsWhitespace(text[|text| - 1]) then Trim(text[..|text| - 1])
    else text
  }

  predicate AllBlank(text: string) {
    forall i :: 0 <= i < |text| ==> IsWhitespace(text[i])
  }

  predicate HasTrimmedEnds(text: string) {
    text == "" || (!IsWhitespace(text[0]) && !IsWhitespace(text[|text| - 1]))
  }

  /** Trimming takes exactly the blanks at both ends. */
  lemma {:induction false} TrimIsExact(before: string, text: string, after: string)
    requires AllBlank(before) && HasTrimmedEnds(text) && AllBlank(after)
    ensures Trim(before + text + after) == text
    decreases |before| + |after|
  {
    var all := before + text + after;
    if before != "" {
      assert all[0] == before[0] && all[1..] == before[1..] + text + after;
      TrimIsExact(before[1..], text, after);
    } else if after != "" {
      assert all == text + after && all[|all| - 1] == after[|after| - 1];
      assert all[..|all| - 1] == before + text + after[..|after| - 1];
      TrimIsExact(before, text, after[..|after| - 1]);
      if text == "" {
        BlankIsTrimmed(all);
      }
    } else {
      assert all == text;
    }
  }

  lemma {:induction false} BlankIsTrimmed(text: string)
    requires AllBlank(text)
    ensures Trim(text) == ""
  {
    if text != "" {
      BlankIsTrimmed(text[1..]);
    }
  }

  /** Among the ASCII characters the blanks are the space and the five control characters of layout. */
  lemma AsciiBlanks(c: char)
    requires c as int < 128
    ensures IsWhitespace(c) <==> c == ' ' || 9 <= c as int <= 13
  {
  }

  /** `parse` reads an RFC 3339 timestamp as an instant. */
  function NotificationCursor(parse: string -> Option<int>, cursor: Option<string>): Key {
    var parts := if cursor.Some? then SplitFromRight(cursor.value) else None;
    var instant := if parts.Some? then parse(Trim(parts.value.0)) else None;
    if instant.Some? && HasTimestamp(AtOffset(instant.value, 0))
    then Key(FormatNotificationRecordTime(instant.value), Trim(parts.value.1))
    else Key(NOTIFICATION_RECORD_CURSOR_MAX_TS, CURSOR_MAX_ID)
  }

  /** The page after a cursor; one row more than fits tells whether there is a next page. */
  function PageAfter(table: seq<Row>, q: Query, cursor: Key, limit: nat): Page
    requires limit >= 1
  {
    var rows := Selected(table, q, cursor, limit + 1);
    if |rows| > limit then Page(rows[..limit], Some(CursorText(rows[limit - 1]))) else Page(rows, None)
  }

  method TakePage(rows: seq<Row>, limit: nat) returns (items: seq<Row>, next: Option<string>)
    requires limit >= 1
    ensures |rows| <= limit ==> items == rows && next == None
    ensures |rows| > limit ==> items == rows[..limit] && next == Some(CursorText(rows[limit - 1]))
  {
    items := [];
    var n := if |rows| < limit then |rows| else limit;
    for i := 0 to n
      invariant items == rows[..i]
    {
      items := items + [rows[i]];
    }
    next := None;
    if |rows| > limit {
      var last := items[|items| - 1];
      next := Some(last.ts + ":" + last.id);
    }
  }

  method ListLogs(table: seq<Row>, user: string, level: Option<string>, cursor: Option<string>, limit: nat)
    returns (items: seq<Row>, next: Option<string>)
    requires limit >= 1
    ensures Page(items, next) == PageAfter(table, Query(user, level), LogCursor(cursor), limit)
  {
    var rows := Selected(table, Query(user, level), LogCursor(cursor), limit + 1);
    items, next := TakePage(rows, limit);
  }

  method ListNotificationRecords(
    table: seq<Row>, user: string, parse: string -> Option<int>, cursor: Option<string>, limit: nat)
    returns (items: seq<Row>, next: Option<string>)
    requires limit >= 1
    ensures Page(items, next) == PageAfter(table, Query(user, None), NotificationCursor(parse, cursor), limit)
  {
    var rows := Selected(table, Query(user, None), NotificationCursor(parse, cursor), limit + 1);
    items, next := TakePage(rows, limit);
  }

  /** What a page makes of all rows before its cursor. */
  lemma PageOfRows(table: seq<Row>, q: Query, cursor: Key, limit: nat)
    requires limit >= 1
    ensures var rows, page := Before(table, q, cursor), PageAfter(table, q, cursor, limit);
            if |rows| <= limit then page == Page(rows, None)
            else page == Page(rows[..limit], Some(CursorText(rows[limit - 1])))
  {
    var rows := Before(table, q, cursor);
    if |rows| > limit {
      assert Selected(table, q, cursor, limit + 1)[..limit] == rows[..limit];
    }
  }

  /** The rows of a descending list are in its first part or below the last row of that part. */
  lemma CutDescending(rows: seq<Row>, limit: nat, row: Row)
    requires Descending(rows) && 1 <= limit <= |rows| && row in rows
    ensures row in rows[..limit] || KeyLess(KeyOf(row), KeyOf(rows[limit - 1]))
  {
    var i :| 0 <= i < |rows| && rows[i] == row;
    if i < limit {
      assert rows[..limit][i] == row;
    }
  }

  /** `bound` separates the rows of a page from those still to come. */
  ghost predicate Separates(table: seq<Row>, q: Query, cursor: Key, items: seq<Row>, bound: Key) {
    forall row :: row in table && Listed(q, cursor, row) ==> row in items || KeyLess(KeyOf(row), bound)
  }

  /** A page takes the newest rows before its cursor, and its next cursor stands between them and
      all others. */
  lemma PageIsExact(table: seq<Row>, q: Query, cursor: Key, limit: nat)
    requires DistinctIds(table) && limit >= 1
    ensures var page := PageAfter(table, q, cursor, limit);
            && Descending(page.items) && |page.items| <= limit
            && (forall row :: row in page.items ==> row in table && Listed(q, cursor, row))
            && (page.next.None? ==> forall row :: row in table && Listed(q, cursor, row) ==> row in page.items)
            && (page.next.Some? ==>
                  && |page.items| == limit
                  && page.next.value == CursorText(page.items[limit - 1])
                  && Separates(table, q, cursor, page.items, KeyOf(page.items[limit - 1])))
  {
    var rows, page := Before(table, q, cursor), PageAfter(table, q, cursor, limit);
    PageOfRows(table, q, cursor, limit);
    BeforeIsExact(table, q, cursor);
    if |rows| > limit {
      assert page.items == rows[..limit];
      forall row | row in page.items
        ensures row in table && Listed(q, cursor, row)
      {
        assert row in rows;
      }
      forall row | row in table && Listed(q, cursor, row)
        ensures row in page.items || KeyLess(KeyOf(row), KeyOf(rows[limit - 1]))
      {
        CutDescending(rows, limit, row);
      }
    }
  }

  /** Without a cursor a listing starts at a fixed place. */
  lemma FirstCursors(parse: string -> Option<int>)
    ensures LogCursor(None) == Key("9999-12-31T23:59:59Z", "zzzz")
    ensures NotificationCursor(parse, None) == Key("9999-12-31T23:59:59.999999999Z", "zzzz")
  {
  }
}
