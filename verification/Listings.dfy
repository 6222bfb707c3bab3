/** The listings of logs and of notification records as they are written and read. */
module Listings {
  import opened Wrappers
  import opened Ordering
  import opened Calendar
  import opened Timestamps
  import opened Pagination
  import opened PageWalks

  /** Row ids are random UUIDs in lower case. */
  predicate IsUuid(id: string) {
    |id| == 36 && forall i :: 0 <= i < |id| ==> '0' <= id[i] <= '9' || 'a' <= id[i] <= 'f' || id[i] == '-'
  }

  lemma UuidFacts(id: string)
    requires IsUuid(id)
    ensures ':' !in id && Less(id, CURSOR_MAX_ID) && Trim(id) == id
  {
  }

  // The first cursor.

  const LAST_SECOND := Stamp(9999, 12, 31, NANOS_PER_DAY - NANOS_PER_SECOND, 0)
  const LAST_NANOSECOND := Stamp(9999, 12, 31, NANOS_PER_DAY - 1, 0)

  lemma TwoDigits(n: nat, width: nat)
    requires n < 100 && width == 2
    ensures Digits(n, width) == [Digit(n / 10), Digit(n % 10)]
  {
    assert Digits(n, width) == Digits(n / 10, width - 1) + [Digit(n % 10)];
    assert Digits(n / 10, width - 1) == Digits(n / 100, width - 2) + [Digit(n / 10)];
  }

  lemma {:induction false} Nines(width: nat)
    ensures Digits(Pow10(width) - 1, width) == seq(width, _ => '9')
  {
    if width > 0 {
      Nines(width - 1);
    }
  }

  lemma LastSecondParts()
    ensures HasTimestamp(LAST_SECOND) && HasTimestamp(LAST_NANOSECOND)
    ensures Hour(LAST_SECOND) == 23 && Minute(LAST_SECOND) == 59 && Second(LAST_SECOND) == 59
            && Nanosecond(LAST_SECOND) == 0
    ensures Hour(LAST_NANOSECOND) == 23 && Minute(LAST_NANOSECOND) == 59 && Second(LAST_NANOSECOND) == 59
    ensures Nanosecond(LAST_NANOSECOND) == 999_999_999
  {
  }

  lemma {:induction false} RenderInTwo(a: seq<Field>, b: seq<Field>)
    ensures Render(a + b) == Render(a) + Render(b)
  {
    if a == [] {
      assert a + b == b;
    } else {
      assert (a + b)[1..] == a[1..] + b;
      RenderInTwo(a[1..], b);
    }
  }

  lemma RenderOne(f: Field)
    ensures Render([f]) == Digits(f.value, f.width) + f.mark
  {
    assert [f][1..] == [] && Render([f]) == Digits(f.value, f.width) + (f.mark + "");
  }

  lemma RenderThree(a: Field, b: Field, c: Field)
    ensures Render([a, b, c])
            == Digits(a.value, a.width) + a.mark + Digits(b.value, b.width) + b.mark + Digits(c.value, c.width) + c.mark
  {
    assert [a, b, c] == [a] + ([b] + [c]);
    RenderInTwo([a], [b] + [c]);
    RenderInTwo([b], [c]);
    RenderOne(a);
    RenderOne(b);
    RenderOne(c);
  }

  lemma DateText(year: Field, month: Field, day: Field)
    requires year.mark == "-" && month.mark == "-" && day.mark == "T"
    requires Digits(year.value, year.width) == "9999" && Digits(month.value, month.width) == "12"
    requires Digits(day.value, day.width) == "31"
    ensures Render([year, month, day]) == "9999-12-31T"
  {
    RenderThree(year, month, day);
  }

  lemma TimeText(hour: Field, minute: Field, second: Field)
    requires hour.mark == ":" && minute.mark == ":" && second.mark == ""
    requires Digits(hour.value, hour.width) == "23" && Digits(minute.value, minute.width) == "59"
    requires Digits(second.value, second.width) == "59"
    ensures Render([hour, minute, second]) == "23:59:59"
  {
    RenderThree(hour, minute, second);
  }

  lemma LastFieldDigits(f: seq<Field>)
    requires |f| == 6 && f[0].width == 4 && forall i :: 1 <= i < 6 ==> f[i].width == 2
    requires f[0].value == 9999 && f[1].value == 12 && f[2].value == 31 && f[3].value == 23
    requires f[4].value == 59 && f[5].value == 59
    ensures Digits(f[0].value, f[0].width) == "9999" && Digits(f[1].value, f[1].width) == "12"
    ensures Digits(f[2].value, f[2].width) == "31" && Digits(f[3].value, f[3].width) == "23"
    ensures Digits(f[4].value, f[4].width) == "59" && Digits(f[5].value, f[5].width) == "59"
  {
    Nines(f[0].width);
    assert Pow10(4) == 10000;
    TwoDigits(f[1].value, f[1].width);
    TwoDigits(f[2].value, f[2].width);
    TwoDigits(f[3].value, f[3].width);
    TwoDigits(f[4].value, f[4].width);
    TwoDigits(f[5].value, f[5].width);
  }

  lemma LastSecondOf(s: Stamp)
    requires HasTimestamp(s) && s.year == 9999 && s.month == 12 && s.day == 31
    requires Hour(s) == 23 && Minute(s) == 59 && Second(s) == 59
    ensures SecondText(s) == "9999-12-31T" + "23:59:59"
  {
    var f := SecondFields(s);
    LastFieldDigits(f);
    DateText(f[0], f[1], f[2]);
    TimeText(f[3], f[4], f[5]);
    RenderInTwo([f[0], f[1], f[2]], [f[3], f[4], f[5]]);
    assert f == [f[0], f[1], f[2]] + [f[3], f[4], f[5]];
  }

  lemma LastSecondText()
    ensures HasTimestamp(LAST_SECOND) && SecondText(LAST_SECOND) == "9999-12-31T" + "23:59:59"
    ensures HasTimestamp(LAST_NANOSECOND) && SecondText(LAST_NANOSECOND) == "9999-12-31T" + "23:59:59"
  {
    LastSecondParts();
    LastSecondOf(LAST_SECOND);
    LastSecondOf(LAST_NANOSECOND);
  }

  /** Every time to the second is at most that of the first cursors. */
  lemma NothingIsLater(s: Stamp)
    requires HasTimestamp(s)
    ensures WholeSeconds(s) <= WholeSeconds(LAST_SECOND) && WholeSeconds(LAST_NANOSECOND) == WholeSeconds(LAST_SECOND)
  {
    LastSecondParts();
    DatesAreOrdered(LAST_SECOND, s);
    ClockOrder(LAST_SECOND, s);
  }

  lemma LastFraction(s: Stamp)
    requires s.Valid()
    ensures var nanos := Digits(Nanosecond(s), 9);
            Less("." + (nanos + "Z"), "." + ("999999999" + "Z")) || nanos == "999999999"
  {
    NanosecondFits(s);
    LargestFraction(Nanosecond(s), 9);
    assert seq(9, _ => '9') == "999999999";
    LessByParts(".", ".", Digits(Nanosecond(s), 9) + "Z", "999999999" + "Z");
    LessByParts(Digits(Nanosecond(s), 9), "999999999", "Z", "Z");
  }

  lemma LargestFraction(n: nat, width: nat)
    requires n < Pow10(width)
    ensures Less(Digits(n, width), seq(width, _ => '9')) || Digits(n, width) == seq(width, _ => '9')
  {
    Nines(width);
    DigitsOrder(n, Pow10(width) - 1, width);
  }

  lemma CursorTexts(second: string)
    requires second == "9999-12-31T" + "23:59:59"
    ensures LOG_CURSOR_MAX_TS == second + "Z"
    ensures NOTIFICATION_RECORD_CURSOR_MAX_TS == second + ("." + ("999999999" + "Z"))
  {
    assert second + "Z" == LOG_CURSOR_MAX_TS;
    assert second + ("." + ("999999999" + "Z")) == NOTIFICATION_RECORD_CURSOR_MAX_TS;
  }

  lemma FirstCursorTexts()
    ensures HasTimestamp(LAST_SECOND) && LOG_CURSOR_MAX_TS == SecondText(LAST_SECOND) + "Z"
    ensures HasTimestamp(LAST_NANOSECOND)
    ensures NOTIFICATION_RECORD_CURSOR_MAX_TS == SecondText(LAST_NANOSECOND) + ("." + ("999999999" + "Z"))
  {
    LastSecondText();
    CursorTexts(SecondText(LAST_SECOND));
    CursorTexts(SecondText(LAST_NANOSECOND));
  }

  lemma SecondTextBound(s: Stamp)
    requires HasTimestamp(s)
    ensures HasTimestamp(LAST_SECOND) && |SecondText(s)| == |SecondText(LAST_SECOND)|
    ensures Less(SecondText(s), SecondText(LAST_SECOND)) || SecondText(s) == SecondText(LAST_SECOND)
    ensures HasTimestamp(LAST_NANOSECOND) && SecondText(LAST_SECOND) == SecondText(LAST_NANOSECOND)
  {
    LastSecondParts();
    NothingIsLater(s);
    SecondTextOrder(s, LAST_SECOND);
    LastSecondText();
  }

  lemma RecordTextBound(s: Stamp)
    requires HasTimestamp(s)
    ensures Less(CanonicalText(s), NOTIFICATION_RECORD_CURSOR_MAX_TS)
            || CanonicalText(s) == NOTIFICATION_RECORD_CURSOR_MAX_TS
  {
    var nanos := Digits(Nanosecond(s), 9);
    SecondTextBound(s);
    FirstCursorTexts();
    LastFraction(s);
    LessByParts(SecondText(s), SecondText(LAST_NANOSECOND), "." + (nanos + "Z"), "." + ("999999999" + "Z"));
  }

  lemma LogTextBound(s: Stamp)
    requires HasTimestamp(s)
    ensures var text := SecondText(s) + Tail(FractionDigits(s));
            Less(text, LOG_CURSOR_MAX_TS) || text == LOG_CURSOR_MAX_TS
  {
    SecondTextBound(s);
    FirstCursorTexts();
    LessByParts(SecondText(s), SecondText(LAST_SECOND), Tail(FractionDigits(s)), "Z");
    assert Tail(FractionDigits(s)) == "Z" || Less(Tail(FractionDigits(s)), "Z");
  }

  /** Every notification record is listed from the start, whatever its time and id. */
  lemma FirstCursorIsAboveRecords(row: Row, instant: int)
    requires IsUuid(row.id) && HasTimestamp(AtOffset(instant, 0)) && row.ts == FormatNotificationRecordTime(instant)
    ensures KeyLess(KeyOf(row), Key(NOTIFICATION_RECORD_CURSOR_MAX_TS, CURSOR_MAX_ID))
  {
    UuidFacts(row.id);
    RecordTextBound(AtOffset(instant, 0));
  }

  /** So is every log, although log texts are not in time order within a second. */
  lemma FirstCursorIsAboveLogs(row: Row, instant: int)
    requires IsUuid(row.id) && HasTimestamp(AtOffset(instant, 0)) && row.ts == FormatLogTime(instant)
    ensures KeyLess(KeyOf(row), Key(LOG_CURSOR_MAX_TS, CURSOR_MAX_ID))
  {
    UuidFacts(row.id);
    LogTextBound(AtOffset(instant, 0));
  }

  // Cursors of written rows.

  predicate IsLog(row: Row, instant: int) {
    IsUuid(row.id) && HasTimestamp(AtOffset(instant, 0)) && row.ts == FormatLogTime(instant)
  }

  predicate IsRecord(row: Row, instant: int) {
    IsUuid(row.id) && HasTimestamp(AtOffset(instant, 0)) && row.ts == FormatNotificationRecordTime(instant)
  }

  ghost predicate WrittenLogs(table: seq<Row>) {
    DistinctIds(table) && forall row :: row in table ==> exists instant :: IsLog(row, instant)
  }

  ghost predicate WrittenRecords(table: seq<Row>) {
    DistinctIds(table) && forall row :: row in table ==> exists instant :: IsRecord(row, instant)
  }

  /** A reader of RFC 3339 timestamps reads at least the fixed-width ones. */
  ghost predicate ReadsRecordTimes(parse: string -> Option<int>) {
    forall instant :: HasTimestamp(AtOffset(instant, 0))
      ==> parse(FormatNotificationRecordTime(instant)) == Some(instant)
  }

  /** The reader of exactly the fixed-width texts is one. */
  lemma CanonicalReaderReads()
    ensures ReadsRecordTimes(ReadCanonical)
  {
    forall instant | HasTimestamp(AtOffset(instant, 0))
      ensures ReadCanonical(FormatNotificationRecordTime(instant)) == Some(instant)
    {
      CanonicalRoundTrip(instant);
    }
  }

  lemma LogCursorsRead(table: seq<Row>)
    requires WrittenLogs(table)
    ensures ReadableTable(table, LogCursor)
  {
    forall row | row in table
      ensures LogCursor(Some(CursorText(row))) == KeyOf(row)
    {
      var instant :| IsLog(row, instant);
      UuidFacts(row.id);
      CursorSplits(row.ts, row.id);
    }
  }

  /** Trimming leaves a text whose ends are not blank alone. */
  lemma TrimKeeps(text: string)
    requires text != "" && !IsWhitespace(text[0]) && !IsWhitespace(text[|text| - 1])
    ensures Trim(text) == text
  {
  }

  lemma FirstDigit(s: Stamp)
    requires HasTimestamp(s)
    ensures SecondText(s) != "" && '0' <= SecondText(s)[0] <= '9'
  {
    ShapeOfSeconds(s);
    var fields := SecondFields(s);
    RenderInTwo(fields[..1], fields[1..]);
    assert fields == fields[..1] + fields[1..] && fields[..1] == [fields[0]];
    RenderOne(fields[0]);
    assert AllDigits(Digits(fields[0].value, fields[0].width));
  }

  lemma RecordTextIsTrimmed(instant: int)
    requires HasTimestamp(AtOffset(instant, 0))
    ensures Trim(FormatNotificationRecordTime(instant)) == FormatNotificationRecordTime(instant)
  {
    hide SecondText, AtOffset, Trim, Digits;
    var s := AtOffset(instant, 0);
    CanonicalParts(s);
    FirstDigit(s);
    var text := FormatNotificationRecordTime(instant);
    assert text[0] == text[..19][0];
    TrimKeeps(text);
  }

  lemma RecordCursorsRead(table: seq<Row>, parse: string -> Option<int>)
    requires WrittenRecords(table) && ReadsRecordTimes(parse)
    ensures ReadableTable(table, cursor => NotificationCursor(parse, cursor))
  {
    forall row | row in table
      ensures NotificationCursor(parse, Some(CursorText(row))) == KeyOf(row)
    {
      var instant :| IsRecord(row, instant);
      UuidFacts(row.id);
      CursorSplits(row.ts, row.id);
      RecordTextIsTrimmed(instant);
    }
  }

  // The listings.

  /** Following the cursors of the logs lists all logs of the user at the level, each once. */
  lemma AllLogsAreListedOnce(tables: seq<seq<Row>>, table: seq<Row>, q: Query, limit: nat)
    requires limit >= 1 && WrittenLogs(table)
    requires |tables| > |table| && forall i :: 0 <= i < |tables| ==> tables[i] == table
    ensures var walk := Follow(tables, q, LogCursor, None, limit);
            && walk.finished && Descending(walk.items)
            && forall row ::
                 multiset(walk.items)[row]
                 == if row in table && row.user == Some(q.user) && (q.level == None || q.level == Some(row.level))
                    then 1 else 0
  {
    LogCursorsRead(table);
    FollowingListsAll(tables, table, q, LogCursor, None, limit);
    BeforeIsExact(table, q, LogCursor(None));
    forall row
      ensures multiset(Before(table, q, LogCursor(None)))[row] == if row in table && Matches(q, row) then 1 else 0
    {
      MatchingMembers(table, q, LogCursor(None), row);
      if row in table {
        var instant :| IsLog(row, instant);
        FirstCursorIsAboveLogs(row, instant);
      }
    }
  }

  /** Following the cursors of the notification records lists all records of the user, each once
      and newest first. */
  lemma AllRecordsAreListedOnce(
    tables: seq<seq<Row>>, table: seq<Row>, user: string, parse: string -> Option<int>, limit: nat)
    requires limit >= 1 && WrittenRecords(table) && ReadsRecordTimes(parse)
    requires |tables| > |table| && forall i :: 0 <= i < |tables| ==> tables[i] == table
    ensures var walk := Follow(tables, Query(user, None), cursor => NotificationCursor(parse, cursor), None, limit);
            && walk.finished && NewestFirst(walk.items)
            && forall row :: multiset(walk.items)[row] == if row in table && row.user == Some(user) then 1 else 0
  {
    hide AtOffset, FormatNotificationRecordTime, Follow;
    var q, decode := Query(user, None), cursor => NotificationCursor(parse, cursor);
    RecordCursorsRead(table, parse);
    FollowingListsAll(tables, table, q, decode, None, limit);
    BeforeIsExact(table, q, decode(None));
    forall row
      ensures multiset(Before(table, q, decode(None)))[row] == if row in table && row.user == Some(user) then 1 else 0
    {
      MatchingMembers(table, q, decode(None), row);
      if row in table {
        var instant :| IsRecord(row, instant);
        FirstCursorIsAboveRecords(row, instant);
      }
    }
    DescendingIsNewestFirst(Before(table, q, decode(None)));
  }

  ghost predicate NewestFirst(rows: seq<Row>) {
    forall i, j, s, t :: 0 <= i < j < |rows| && IsRecord(rows[i], s) && IsRecord(rows[j], t) ==> s >= t
  }

  lemma DescendingIsNewestFirst(rows: seq<Row>)
    requires Descending(rows)
    ensures NewestFirst(rows)
  {
    forall i, j, s, t | 0 <= i < j < |rows| && IsRecord(rows[i], s) && IsRecord(rows[j], t)
      ensures s >= t
    {
      assert KeyLess(KeyOf(rows[j]), KeyOf(rows[i]));
      CanonicalOrder(t, s);
    }
  }
}
