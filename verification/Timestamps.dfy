/** The two timestamp texts of the store: the fixed-width one of notification records and the
    RFC 3339 one of logs, whose fraction of a second has no trailing zeros. */
module Timestamps {
  import opened Wrappers
  import opened Calendar
  import opened Ordering

  const NANOS_PER_MINUTE := 60_000_000_000

  function Pow10(width: nat): (p: nat)
    ensures p > 0
  {
    if width == 0 then 1 else 10 * Pow10(width - 1)
  }

  function Digit(n: nat): char
    requires n < 10
  {
    '0' + n as char
  }

  predicate AllDigits(text: string) {
    forall i :: 0 <= i < |text| ==> '0' <= text[i] <= '9'
  }

  /** A number in decimal, padded with zeros to the width. */
  function Digits(n: nat, width: nat): (text: string)
    ensures |text| == width
    ensures AllDigits(text)
  {
    if width == 0 then "" else Digits(n / 10, width - 1) + [Digit(n % 10)]
  }

  function Number(text: string): nat {
    if text == "" then 0
    else
      var last := text[|text| - 1];
      10 * Number(text[..|text| - 1]) + (if '0' <= last then last as int - '0' as int else 0)
  }

  lemma {:induction false} DigitsAreRead(n: nat, width: nat)
    requires n < Pow10(width)
    ensures Number(Digits(n, width)) == n
  {
    if width > 0 {
      DigitsAreRead(n / 10, width - 1);
      assert Digits(n, width)[..width - 1] == Digits(n / 10, width - 1);
    }
  }

  /** Texts that begin with parts of one length compare by these parts first. */
  lemma LessByParts(p: string, q: string, a: string, b: string)
    requires |p| == |q|
    ensures Less(p + a, q + b) <==> Less(p, q) || (p == q && Less(a, b))
    ensures p + a == q + b <==> p == q && a == b
  {
    LessIsStrict(p, q);
    if p == q {
      LessAfterPrefix(p, a, b);
      assert a == (p + a)[|p|..] && b == (q + b)[|p|..];
    } else {
      LessByPrefix(p, q, a, b);
      assert p == (p + a)[..|p|] && q == (q + b)[..|p|];
    }
  }

  lemma {:induction false} DigitsOrder(n: nat, m: nat, width: nat)
    requires n < Pow10(width) && m < Pow10(width)
    ensures Less(Digits(n, width), Digits(m, width)) <==> n < m
    ensures Digits(n, width) == Digits(m, width) <==> n == m
  {
    if width > 0 {
      DigitsOrder(n / 10, m / 10, width - 1);
      LessByParts(Digits(n / 10, width - 1), Digits(m / 10, width - 1), [Digit(n % 10)], [Digit(m % 10)]);
    }
  }

  // Texts made of numbers of fixed width, each followed by a mark.

  datatype Field = Field(value: nat, width: nat, mark: string)

  function Render(fields: seq<Field>): string {
    if fields == [] then "" else Digits(fields[0].value, fields[0].width) + (fields[0].mark + Render(fields[1..]))
  }

  predicate Fit(fields: seq<Field>) {
    forall i :: 0 <= i < |fields| ==> fields[i].value < Pow10(fields[i].width)
  }

  predicate SameShape(a: seq<Field>, b: seq<Field>) {
    |a| == |b| && forall i :: 0 <= i < |a| ==> a[i].width == b[i].width && a[i].mark == b[i].mark
  }

  predicate FieldsLess(a: seq<Field>, b: seq<Field>) {
    a != [] && b != [] &&
    (a[0].value < b[0].value || (a[0].value == b[0].value && FieldsLess(a[1..], b[1..])))
  }

  /** Such texts are in the order of their numbers. */
  lemma {:induction false} RenderOrder(a: seq<Field>, b: seq<Field>)
    requires Fit(a) && Fit(b) && SameShape(a, b)
    ensures Less(Render(a), Render(b)) <==> FieldsLess(a, b)
    ensures |Render(a)| == |Render(b)|
    ensures Render(a) == Render(b) <==> a == b
  {
    if a != [] {
      RenderOrder(a[1..], b[1..]);
      FirstFieldOrder(a[0], b[0], Render(a[1..]), Render(b[1..]));
      assert a == [a[0]] + a[1..] && b == [b[0]] + b[1..];
    }
  }

  lemma FirstFieldOrder(f: Field, g: Field, a: string, b: string)
    requires f.value < Pow10(f.width) && g.value < Pow10(g.width) && f.width == g.width && f.mark == g.mark
    ensures var x, y := Digits(f.value, f.width) + (f.mark + a), Digits(g.value, g.width) + (g.mark + b);
            && (Less(x, y) <==> f.value < g.value || (f.value == g.value && Less(a, b)))
            && (x == y <==> f == g && a == b)
  {
    DigitsOrder(f.value, g.value, f.width);
    LessByParts(Digits(f.value, f.width), Digits(g.value, g.width), f.mark + a, g.mark + b);
    LessByParts(f.mark, g.mark, a, b);
    LessIsStrict(f.mark, f.mark);
  }

  /** Reads the numbers back, given the widths and marks. */
  function ReadFields(shape: seq<(nat, string)>, text: string): Option<seq<Field>>
    decreases |shape|
  {
    if shape == [] then (if text == "" then Some([]) else None)
    else if |text| < shape[0].0 then None
    else
      var value, rest := Number(text[..shape[0].0]), ReadMark(shape[0].1, text[shape[0].0..]);
      if rest.None? then None
      else
        var fields := ReadFields(shape[1..], rest.value);
        if fields.None? then None else Some([Field(value, shape[0].0, shape[0].1)] + fields.value)
  }

  function ReadMark(mark: string, text: string): Option<string> {
    if mark <= text then Some(text[|mark|..]) else None
  }

  function ShapeOf(fields: seq<Field>): seq<(nat, string)> {
    if fields == [] then [] else [(fields[0].width, fields[0].mark)] + ShapeOf(fields[1..])
  }

  lemma Cut(a: string, b: string)
    ensures (a + b)[..|a|] == a && (a + b)[|a|..] == b
  {
  }

  lemma MarkIsRead(mark: string, rest: string)
    ensures ReadMark(mark, mark + rest) == Some(rest)
  {
    Cut(mark, rest);
  }

  /** One number and its mark are read off the front. */
  lemma ReadOne(shape: seq<(nat, string)>, f: Field, rest: string, fields: seq<Field>)
    requires shape != [] && shape[0] == (f.width, f.mark) && f.value < Pow10(f.width)
    requires ReadFields(shape[1..], rest) == Some(fields)
    ensures ReadFields(shape, Digits(f.value, f.width) + (f.mark + rest)) == Some([f] + fields)
  {
    hide Digits, Number, Pow10, ReadMark;
    DigitsAreRead(f.value, f.width);
    Cut(Digits(f.value, f.width), f.mark + rest);
    MarkIsRead(f.mark, rest);
  }

  lemma {:induction false} RenderIsRead(fields: seq<Field>)
    requires Fit(fields)
    ensures ReadFields(ShapeOf(fields), Render(fields)) == Some(fields)
  {
    hide Digits, Number, Pow10, ReadMark;
    if fields != [] {
      RenderIsRead(fields[1..]);
      assert ShapeOf(fields)[1..] == ShapeOf(fields[1..]);
      ReadOne(ShapeOf(fields), fields[0], Render(fields[1..]), fields[1..]);
      assert fields == [fields[0]] + fields[1..];
    }
  }

  // Dates and times as fields.

  function Hour(s: Stamp): int { s.timeOfDay / NANOS_PER_HOUR }

  function Minute(s: Stamp): int { s.timeOfDay % NANOS_PER_HOUR / NANOS_PER_MINUTE }

  function Second(s: Stamp): int { s.timeOfDay % NANOS_PER_MINUTE / NANOS_PER_SECOND }

  function Nanosecond(s: Stamp): int { s.timeOfDay % NANOS_PER_SECOND }

  /** RFC 3339 can write exactly the local times of the years 0 to 9999. */
  lemma WritableYears(instant: int)
    ensures HasTimestamp(AtOffset(instant, 0)) <==> 0 <= AtOffset(instant, 0).year <= 9999
  {
  }

  predicate HasTimestamp(s: Stamp) {
    s.Valid() && 0 <= s.year <= 9999
  }

  lemma TimeParts(s: Stamp)
    requires s.Valid()
    ensures 0 <= Hour(s) < 24 && 0 <= Minute(s) < 60 && 0 <= Second(s) < 60 && 0 <= Nanosecond(s) < NANOS_PER_SECOND
    ensures s.timeOfDay == Hour(s) * NANOS_PER_HOUR + Minute(s) * NANOS_PER_MINUTE + Second(s) * NANOS_PER_SECOND
            + Nanosecond(s)
  {
  }

  /** The whole seconds of a time. */
  function WholeSeconds(s: Stamp): int {
    (s.Day() - EPOCH_DAY) * 86_400 + s.timeOfDay / NANOS_PER_SECOND
  }

  lemma WholeSecondsOfInstant(s: Stamp)
    requires s.Valid() && s.offset == 0
    ensures s.Instant() == WholeSeconds(s) * NANOS_PER_SECOND + Nanosecond(s)
  {
  }

  const SECOND_SHAPE: seq<(nat, string)> := [(4, "-"), (2, "-"), (2, "T"), (2, ":"), (2, ":"), (2, "")]

  function SecondFields(s: Stamp): (fields: seq<Field>)
    requires HasTimestamp(s)
    ensures Fit(fields)
  {
    TimeParts(s);
    assert Pow10(2) == 100 && Pow10(4) == 10000;
    [Field(s.year, 4, "-"), Field(s.month, 2, "-"), Field(s.day, 2, "T"),
     Field(Hour(s), 2, ":"), Field(Minute(s), 2, ":"), Field(Second(s), 2, "")]
  }

  /** The date and time to the second. */
  function SecondText(s: Stamp): (text: string)
    requires HasTimestamp(s)
  {
    Render(SecondFields(s))
  }

  lemma LastThreeFields(a: seq<Field>, b: seq<Field>)
    requires |a| == |b| == 3
    ensures FieldsLess(a, b)
            <==> a[0].value < b[0].value
                 || (a[0].value == b[0].value
                    && (a[1].value < b[1].value || (a[1].value == b[1].value && a[2].value < b[2].value)))
  {
    assert a[1..][1..] == [a[2]] && b[1..][1..] == [b[2]];
    assert a[1..][0] == a[1] && b[1..][0] == b[1];
    assert FieldsLess([a[2]], [b[2]]) <==> a[2].value < b[2].value;
    assert FieldsLess(a[1..], b[1..])
           <==> a[1].value < b[1].value
                || (a[1].value == b[1].value && FieldsLess([a[2]], [b[2]]));
  }

  lemma SixFields(a: seq<Field>, b: seq<Field>)
    requires |a| == |b| == 6
    ensures FieldsLess(a, b) <==> FieldsLess(a[..3], b[..3])
                                  || (a[0].value == b[0].value && a[1].value == b[1].value && a[2].value == b[2].value
                                      && FieldsLess(a[3..], b[3..]))
  {
    LastThreeFields(a[..3], b[..3]);
    assert a[1..][1..][1..] == a[3..] && b[1..][1..][1..] == b[3..];
    assert a[1..][1..][0] == a[2] && b[1..][1..][0] == b[2];
    assert a[1..][0] == a[1] && b[1..][0] == b[1];
    assert FieldsLess(a[1..], b[1..])
           <==> a[1].value < b[1].value
                || (a[1].value == b[1].value && FieldsLess(a[1..][1..], b[1..][1..]));
  }

  lemma DatesAreOrdered(a: Stamp, b: Stamp)
    requires a.Valid() && b.Valid()
    ensures a.Day() < b.Day()
            <==> a.year < b.year || (a.year == b.year && (a.month < b.month || (a.month == b.month && a.day < b.day)))
  {
    MonthOfStamp(a);
    MonthOfStamp(b);
    if a.MonthIndex() < b.MonthIndex() {
      MonthsAreOrdered(a.MonthIndex() + 1, b.MonthIndex());
    } else if b.MonthIndex() < a.MonthIndex() {
      MonthsAreOrdered(b.MonthIndex() + 1, a.MonthIndex());
    }
  }

  /** Texts to the second are in the order of the seconds. */
  lemma SecondTextOrder(a: Stamp, b: Stamp)
    requires HasTimestamp(a) && HasTimestamp(b)
    ensures Less(SecondText(a), SecondText(b)) <==> WholeSeconds(a) < WholeSeconds(b)
    ensures SecondText(a) == SecondText(b) <==> WholeSeconds(a) == WholeSeconds(b)
    ensures |SecondText(a)| == |SecondText(b)|
  {
    RenderOrder(SecondFields(a), SecondFields(b));
    RenderOrder(SecondFields(b), SecondFields(a));
    FieldsAreSeconds(a, b);
    FieldsAreSeconds(b, a);
    LessIsStrict(SecondText(a), SecondText(b));
  }

  lemma FieldsAreSeconds(a: Stamp, b: Stamp)
    requires HasTimestamp(a) && HasTimestamp(b)
    ensures FieldsLess(SecondFields(a), SecondFields(b)) <==> WholeSeconds(a) < WholeSeconds(b)
  {
    var x, y := SecondFields(a), SecondFields(b);
    SixFields(x, y);
    LastThreeFields(x[..3], y[..3]);
    LastThreeFields(x[3..], y[3..]);
    DatesAreOrdered(a, b);
    DatesAreOrdered(b, a);
    ClockOrder(a, b);
  }

  lemma ClockOrder(a: Stamp, b: Stamp)
    requires a.Valid() && b.Valid()
    ensures Hour(a) < Hour(b) || (Hour(a) == Hour(b)
            && (Minute(a) < Minute(b) || (Minute(a) == Minute(b) && Second(a) < Second(b))))
            <==> a.timeOfDay / NANOS_PER_SECOND < b.timeOfDay / NANOS_PER_SECOND
    ensures 0 <= a.timeOfDay / NANOS_PER_SECOND < 86_400
  {
    TimeParts(a);
    TimeParts(b);
  }

  // The fixed-width text of notification records.

  function CanonicalText(s: Stamp): string
    requires HasTimestamp(s)
  {
    SecondText(s) + ("." + (Digits(Nanosecond(s), 9) + "Z"))
  }

  /** The text of an instant, read in UTC. */
  function FormatNotificationRecordTime(instant: int): string
    requires HasTimestamp(AtOffset(instant, 0))
  {
    CanonicalText(AtOffset(instant, 0))
  }

  lemma NanosecondFits(s: Stamp)
    requires s.Valid()
    ensures 0 <= Nanosecond(s) < Pow10(9)
  {
    assert Pow10(4) == 10000 && Pow10(8) == 10000 * Pow10(4);
  }

  /** Text order of the fixed-width texts is time order. */
  lemma CanonicalOrder(a: int, b: int)
    requires HasTimestamp(AtOffset(a, 0)) && HasTimestamp(AtOffset(b, 0))
    ensures Less(FormatNotificationRecordTime(a), FormatNotificationRecordTime(b)) <==> a < b
    ensures FormatNotificationRecordTime(a) == FormatNotificationRecordTime(b) <==> a == b
  {
    var s, t := AtOffset(a, 0), AtOffset(b, 0);
    var m, n := Digits(Nanosecond(s), 9), Digits(Nanosecond(t), 9);
    SecondTextOrder(s, t);
    NanosecondFits(s);
    NanosecondFits(t);
    DigitsOrder(Nanosecond(s), Nanosecond(t), 9);
    LessByParts(SecondText(s), SecondText(t), "." + (m + "Z"), "." + (n + "Z"));
    LessByParts(".", ".", m + "Z", n + "Z");
    LessByParts(m, n, "Z", "Z");
    LessIsStrict(".", ".");
    LessIsStrict("Z", "Z");
    WholeSecondsOfInstant(s);
    WholeSecondsOfInstant(t);
  }

  function StampOf(fields: seq<Field>, nanos: nat): Stamp
    requires |fields| == 6
  {
    Stamp(fields[0].value, fields[1].value, fields[2].value,
          fields[3].value * NANOS_PER_HOUR + fields[4].value * NANOS_PER_MINUTE + fields[5].value * NANOS_PER_SECOND
            + nanos,
          0)
  }

  /** Reads a fixed-width text back. */
  function ReadCanonical(text: string): Option<int> {
    if |text| != 30 || text[19] != '.' || text[29] != 'Z' then None
    else
      var fields := ReadFields(SECOND_SHAPE, text[..19]);
      if fields.None? || |fields.value| != 6 then None
      else
        var s := StampOf(fields.value, Number(text[20..29]));
        if s.Valid() then Some(s.Instant()) else None
  }

  lemma ShapeOfSeconds(s: Stamp)
    requires HasTimestamp(s)
    ensures ShapeOf(SecondFields(s)) == SECOND_SHAPE && |SecondText(s)| == 19
  {
    var f := SecondFields(s);
    assert f[1..][1..] == f[2..] && f[2..][1..] == f[3..] && f[3..][1..] == f[4..] && f[4..][1..] == f[5..]
           && f[5..][1..] == [];
    assert ShapeOf(f[5..]) == [(2, "")] && |Render(f[5..])| == 2;
    assert ShapeOf(f[4..]) == [(2, ":"), (2, "")] && |Render(f[4..])| == 5;
    assert ShapeOf(f[3..]) == [(2, ":"), (2, ":"), (2, "")] && |Render(f[3..])| == 8;
    assert ShapeOf(f[2..]) == [(2, "T"), (2, ":"), (2, ":"), (2, "")] && |Render(f[2..])| == 11;
    assert ShapeOf(f[1..]) == [(2, "-"), (2, "T"), (2, ":"), (2, ":"), (2, "")] && |Render(f[1..])| == 14;
  }

  lemma CanonicalParts(s: Stamp)
    requires HasTimestamp(s)
    ensures var text := CanonicalText(s);
            && |text| == 30 && text[19] == '.' && text[29] == 'Z'
            && text[..19] == SecondText(s) && text[20..29] == Digits(Nanosecond(s), 9)
  {
    ShapeOfSeconds(s);
    PartsOfText(SecondText(s), Digits(Nanosecond(s), 9));
  }

  lemma PartsOfText(second: string, nanos: string)
    requires |second| == 19 && |nanos| == 9
    ensures var text := second + ("." + (nanos + "Z"));
            |text| == 30 && text[19] == '.' && text[29] == 'Z' && text[..19] == second && text[20..29] == nanos
  {
  }

  lemma StampIsRead(s: Stamp)
    requires HasTimestamp(s) && s.offset == 0
    ensures StampOf(SecondFields(s), Nanosecond(s)) == s
  {
    TimeParts(s);
  }

  /** The fixed-width text loses nothing. */
  lemma CanonicalRoundTrip(instant: int)
    requires HasTimestamp(AtOffset(instant, 0))
    ensures ReadCanonical(FormatNotificationRecordTime(instant)) == Some(instant)
  {
    var s := AtOffset(instant, 0);
    CanonicalParts(s);
    ShapeOfSeconds(s);
    RenderIsRead(SecondFields(s));
    NanosecondFits(s);
    DigitsAreRead(Nanosecond(s), 9);
    StampIsRead(s);
  }

  // The RFC 3339 text of logs.

  /** Drops trailing zeros. */
  function TrimZeros(text: string): string {
    if text == "" then ""
    else
      var rest := TrimZeros(text[1..]);
      if rest == "" && text[0] == '0' then "" else [text[0]] + rest
  }

  function FractionDigits(s: Stamp): string
    requires s.Valid()
  {
    TrimZeros(Digits(Nanosecond(s), 9))
  }

  /** After the second there is a fraction only if it is not zero, without trailing zeros. */
  function FormatLogTime(instant: int): string
    requires HasTimestamp(AtOffset(instant, 0))
  {
    var s := AtOffset(instant, 0);
    SecondText(s) + Tail(FractionDigits(s))
  }

  function Tail(fraction: string): string {
    if fraction == "" then "Z" else "." + (fraction + "Z")
  }

  lemma {:induction false} TrimsZerosOnly(text: string)
    ensures var trimmed := TrimZeros(text);
            && trimmed <= text && (forall i :: |trimmed| <= i < |text| ==> text[i] == '0')
            && (trimmed != "" ==> trimmed[|trimmed| - 1] != '0')
  {
    if text != "" {
      TrimsZerosOnly(text[1..]);
      assert text == [text[0]] + text[1..];
    }
  }

  lemma {:induction false} OnlyZeros(n: nat, width: nat)
    requires n < Pow10(width)
    ensures n == 0 ==> forall i :: 0 <= i < width ==> Digits(n, width)[i] == '0'
    ensures n != 0 ==> exists i :: 0 <= i < width && Digits(n, width)[i] != '0'
  {
    if width > 0 {
      var front := Digits(n / 10, width - 1);
      OnlyZeros(n / 10, width - 1);
      assert Digits(n, width) == front + [Digit(n % 10)];
      if n / 10 != 0 {
        var i :| 0 <= i < width - 1 && front[i] != '0';
        assert Digits(n, width)[i] == front[i];
      } else if n != 0 {
        assert Digits(n, width)[width - 1] != '0';
      }
    }
  }

  /** The log text of an instant: its second, then its nine digits of nanoseconds without the zeros at
      their end, or nothing at a whole second. */
  lemma LogTextsAreExact(instant: int)
    requires HasTimestamp(AtOffset(instant, 0))
    ensures var s := AtOffset(instant, 0);
            var text, digits, fraction := FormatLogTime(instant), Digits(Nanosecond(s), 9), FractionDigits(s);
            && (Nanosecond(s) == 0 ==> text == SecondText(s) + "Z")
            && (Nanosecond(s) != 0 ==> text == SecondText(s) + ("." + (fraction + "Z")) && fraction != "")
            && fraction <= digits && (forall i :: |fraction| <= i < 9 ==> digits[i] == '0')
            && (fraction != "" ==> fraction[|fraction| - 1] != '0')
  {
    hide Digits, Pow10, TrimZeros, SecondText;
    var s := AtOffset(instant, 0);
    var digits := Digits(Nanosecond(s), 9);
    NanosecondFits(s);
    OnlyZeros(Nanosecond(s), 9);
    TrimsZerosOnly(digits);
  }

  lemma {:induction false} TrimmedOrder(x: string, y: string)
    requires |x| == |y| && AllDigits(x) && AllDigits(y) && Less(x, y)
    ensures Less(TrimZeros(x) + "Z", TrimZeros(y) + "Z") <==> !(TrimZeros(x) <= TrimZeros(y))
    ensures TrimZeros(y) != ""
  {
    var p, q := TrimZeros(x), TrimZeros(y);
    if x[0] == y[0] {
      TrimmedOrder(x[1..], y[1..]);
      var r, t := TrimZeros(x[1..]), TrimZeros(y[1..]);
      if p == "" {
        assert y[0] >= '0';
      } else {
        assert p == [x[0]] + r && q == [x[0]] + t;
        LessByParts([x[0]], [x[0]], r + "Z", t + "Z");
        LessIsStrict([x[0]], [x[0]]);
        assert p + "Z" == [x[0]] + (r + "Z") && q + "Z" == [x[0]] + (t + "Z");
        assert p <= q <==> r <= t by {
          if r <= t { assert q[..|p|] == p; }
          if p <= q { assert t[..|r|] == q[1..|p|] == p[1..]; }
        }
      }
    } else {
      assert x[0] >= '0';
      assert q[0] == y[0];
      if p != "" {
        assert p[0] == x[0];
      }
    }
  }

  lemma TailOrder(x: string, y: string)
    requires |x| == |y| && AllDigits(x) && AllDigits(y) && Less(x, y)
    ensures Less(Tail(TrimZeros(x)), Tail(TrimZeros(y))) <==> !(TrimZeros(x) <= TrimZeros(y))
  {
    var p, q := TrimZeros(x), TrimZeros(y);
    TrimmedOrder(x, y);
    if p != "" {
      LessByParts(".", ".", p + "Z", q + "Z");
      LessIsStrict(".", ".");
    }
  }

  lemma DigitsTailOrder(m: nat, n: nat, width: nat)
    requires m < n < Pow10(width)
    ensures var p, q := TrimZeros(Digits(m, width)), TrimZeros(Digits(n, width));
            Less(Tail(p), Tail(q)) <==> !(p <= q)
  {
    DigitsOrder(m, n, width);
    TailOrder(Digits(m, width), Digits(n, width));
  }

  lemma LaterInstant(s: Stamp, t: Stamp)
    requires s.Valid() && t.Valid() && s.offset == t.offset == 0 && s.Instant() < t.Instant()
    ensures WholeSeconds(s) < WholeSeconds(t) || (WholeSeconds(s) == WholeSeconds(t) && Nanosecond(s) < Nanosecond(t))
  {
    WholeSecondsOfInstant(s);
    WholeSecondsOfInstant(t);
  }

  lemma FractionOrder(s: Stamp, t: Stamp)
    requires s.Valid() && t.Valid() && Nanosecond(s) < Nanosecond(t)
    ensures Less(Tail(FractionDigits(s)), Tail(FractionDigits(t))) <==> !(FractionDigits(s) <= FractionDigits(t))
  {
    NanosecondFits(s);
    NanosecondFits(t);
    DigitsTailOrder(Nanosecond(s), Nanosecond(t), 9);
  }

  lemma LogTextOrder(s: Stamp, t: Stamp)
    requires HasTimestamp(s) && HasTimestamp(t) && s.offset == t.offset == 0 && s.Instant() < t.Instant()
    ensures Less(SecondText(s) + Tail(FractionDigits(s)), SecondText(t) + Tail(FractionDigits(t)))
            <==> !(WholeSeconds(s) == WholeSeconds(t) && FractionDigits(s) <= FractionDigits(t))
  {
    LaterInstant(s, t);
    SecondTextOrder(s, t);
    LessByParts(SecondText(s), SecondText(t), Tail(FractionDigits(s)), Tail(FractionDigits(t)));
    if WholeSeconds(s) == WholeSeconds(t) {
      LessIsStrict(SecondText(s), SecondText(t));
      FractionOrder(s, t);
    }
  }

  /** Log texts of different instants are in time order exactly unless both fall into one second
      and the digits of the earlier fraction begin those of the later one. */
  lemma LogOrder(a: int, b: int)
    requires HasTimestamp(AtOffset(a, 0)) && HasTimestamp(AtOffset(b, 0)) && a < b
    ensures var s, t := AtOffset(a, 0), AtOffset(b, 0);
            Less(FormatLogTime(a), FormatLogTime(b))
            <==> !(WholeSeconds(s) == WholeSeconds(t) && FractionDigits(s) <= FractionDigits(t))
  {
    LogTextOrder(AtOffset(a, 0), AtOffset(b, 0));
  }

  lemma {:induction false} ZerosAreTrimmed(width: nat)
    ensures TrimZeros(Digits(0, width)) == ""
  {
    if width > 0 {
      ZerosAreTrimmed(width - 1);
      LeadingZero(width);
    }
  }

  lemma {:induction false} LeadingZero(width: nat)
    requires width > 0
    ensures Digits(0, width)[0] == '0' && Digits(0, width)[1..] == Digits(0, width - 1)
  {
    if width > 1 {
      LeadingZero(width - 1);
    }
  }

  /** Every full second whose texts exist begins with a pair out of order: the text of half a second
      later sorts before that of the second itself. */
  lemma HalfASecondSortsFirst(second: Stamp)
    requires HasTimestamp(second) && second.offset == 0 && Nanosecond(second) == 0
    ensures var a, b := second.Instant(), second.Instant() + 500_000_000;
            && a < b && HasTimestamp(AtOffset(a, 0)) && HasTimestamp(AtOffset(b, 0))
            && Less(FormatLogTime(b), FormatLogTime(a))
  {
    var half := second.(timeOfDay := second.timeOfDay + 500_000_000);
    TimeParts(second);
    HalfASecondLater(second, half);
    InstantRoundTrip(second);
    InstantRoundTrip(half);
    ZerosAreTrimmed(9);
    LogTextOrder(second, half);
    TextsDiffer(second, half);
    LessIsStrict(FormatLogTime(second.Instant()), FormatLogTime(half.Instant()));
  }

  /** One such pair. */
  lemma LogTimesCanBeOutOfOrder() returns (a: int, b: int)
    ensures a < b && HasTimestamp(AtOffset(a, 0)) && HasTimestamp(AtOffset(b, 0))
    ensures Less(FormatLogTime(b), FormatLogTime(a))
  {
    var second := Stamp(2026, 1, 1, 0, 0);
    HalfASecondSortsFirst(second);
    a, b := second.Instant(), second.Instant() + 500_000_000;
  }

  lemma HalfASecondLater(second: Stamp, half: Stamp)
    requires HasTimestamp(second) && Nanosecond(second) == 0
    requires half == second.(timeOfDay := second.timeOfDay + 500_000_000)
    ensures HasTimestamp(half) && half.Instant() == second.Instant() + 500_000_000
    ensures WholeSeconds(half) == WholeSeconds(second) && Nanosecond(half) == 500_000_000
  {
  }

  /** Only one of the texts ends right after the second. */
  lemma TextsDiffer(second: Stamp, half: Stamp)
    requires HasTimestamp(second) && HasTimestamp(half) && FractionDigits(second) == ""
             && Nanosecond(half) == 500_000_000
    requires WholeSeconds(half) == WholeSeconds(second)
    ensures SecondText(second) + Tail(FractionDigits(second)) != SecondText(half) + Tail(FractionDigits(half))
  {
    SecondTextOrder(second, half);
    LessByParts(SecondText(second), SecondText(half), Tail(FractionDigits(second)), Tail(FractionDigits(half)));
    NanosecondFits(half);
    NonZeroStays(Nanosecond(half), 9);
  }

  lemma NonZeroStays(n: nat, width: nat)
    requires 0 < n < Pow10(width)
    ensures TrimZeros(Digits(n, width)) != ""
  {
    DigitsOrder(0, n, width);
    TrimmedOrder(Digits(0, width), Digits(n, width));
  }
}
