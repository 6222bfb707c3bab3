/** Civil dates under the Gregorian rules of RFC 3339 (the month lengths of section 5.7 and
    the leap-year rule of Appendix C), instants, and local times at a fixed UTC offset.

    An instant is a number of nanoseconds since 1970-01-01T00:00:00Z. Months are numbered from
    January of year 0, so the month of a date is `12 * year + month - 1`. */
module Calendar {

  const NANOS_PER_SECOND := 1_000_000_000
  const NANOS_PER_HOUR := 3_600_000_000_000
  const NANOS_PER_DAY := 86_400_000_000_000
  const EPOCH_DAY := 719_528
  const EPOCH_MONTH := 23_640

  predicate IsLeapYear(year: int) {
    year % 4 == 0 && (year % 100 != 0 || year % 400 == 0)
  }

  function MonthLength(year: int, month: int): (length: int)
    requires 1 <= month <= 12
    ensures 28 <= length <= 31
  {
    if month == 2 then (if IsLeapYear(year) then 29 else 28)
    else if month == 4 || month == 6 || month == 9 || month == 11 then 30
    else 31
  }

  /** The year of a month, counted in steps of twelve months. */
  function YearOfMonth(index: int): (year: int)
    ensures 12 * year <= index < 12 * year + 12
    decreases if index < 0 then 12 - index else index
  {
    if index < 0 then YearOfMonth(index + 12) - 1
    else if index < 12 then 0
    else YearOfMonth(index - 12) + 1
  }

  function MonthInYear(index: int): (month: int)
    ensures 1 <= month <= 12
  {
    index - 12 * YearOfMonth(index) + 1
  }

  lemma YearIsAQuotient(index: int)
    ensures YearOfMonth(index) == index / 12 && MonthInYear(index) == index % 12 + 1
  {
  }

  function LengthOfMonth(index: int): (length: int)
    ensures 28 <= length <= 31
  {
    MonthLength(YearOfMonth(index), MonthInYear(index))
  }

  /** The number of days from the first of month 0 to the first of the given month. */
  function MonthStart(index: int): int
    decreases if index < 0 then -index else index
  {
    if index == 0 then 0
    else if index > 0 then MonthStart(index - 1) + LengthOfMonth(index - 1)
    else MonthStart(index + 1) - LengthOfMonth(index)
  }

  /** Consecutive month starts are one month length apart. */
  lemma MonthStep(index: int)
    ensures MonthStart(index + 1) == MonthStart(index) + LengthOfMonth(index)
  {
  }

  lemma MonthsRise(index: int)
    ensures MonthStart(index) < MonthStart(index + 1)
  {
    MonthStep(index);
  }

  lemma {:induction false} MonthsAreOrdered(a: int, b: int)
    requires a <= b
    ensures MonthStart(a) + 28 * (b - a) <= MonthStart(b) <= MonthStart(a) + 31 * (b - a)
    decreases b - a
  {
    if a < b {
      MonthsAreOrdered(a, b - 1);
      MonthStep(b - 1);
    }
  }

  function MonthForward(n: int, from: int): (index: int)
    requires MonthStart(from) <= n
    ensures MonthStart(index) <= n < MonthStart(index + 1)
    decreases n - MonthStart(from)
  {
    hide MonthStart;
    MonthsRise(from);
    if n < MonthStart(from + 1) then from else MonthForward(n, from + 1)
  }

  /** The month that holds a day, searched for from the given month. */
  function MonthOfDay(n: int, from: int): (index: int)
    ensures MonthStart(index) <= n < MonthStart(index + 1)
    decreases MonthStart(from) - n
  {
    hide MonthStart;
    MonthsRise(from - 1);
    if MonthStart(from) <= n then MonthForward(n, from) else MonthOfDay(n, from - 1)
  }

  lemma MonthOfDayIsUnique(n: int, a: int, b: int)
    requires MonthStart(a) <= n < MonthStart(a + 1)
    requires MonthStart(b) <= n < MonthStart(b + 1)
    ensures a == b
  {
    if a < b {
      MonthsAreOrdered(a + 1, b);
    } else if b < a {
      MonthsAreOrdered(b + 1, a);
    }
  }

  // The closed form of the day count, which fixes the day of the Unix epoch.

  function DaysBeforeYear(year: int): int {
    365 * year + (year + 3) / 4 - (year + 99) / 100 + (year + 399) / 400
  }

  function YearLength(year: int): int {
    if IsLeapYear(year) then 366 else 365
  }

  lemma YearStep(year: int)
    ensures DaysBeforeYear(year + 1) == DaysBeforeYear(year) + YearLength(year)
  {
    EveryFourth(year);
    EveryHundredth(year);
    EveryFourHundredth(year);
  }

  lemma EveryFourth(year: int)
    ensures (year + 4) / 4 == (year + 3) / 4 + (if year % 4 == 0 then 1 else 0)
  {
  }

  lemma EveryHundredth(year: int)
    ensures (year + 100) / 100 == (year + 99) / 100 + (if year % 100 == 0 then 1 else 0)
  {
  }

  lemma EveryFourHundredth(year: int)
    ensures (year + 400) / 400 == (year + 399) / 400 + (if year % 400 == 0 then 1 else 0)
  {
  }

  lemma TwelveMonths(year: int)
    ensures MonthStart(12 * year + 12) == MonthStart(12 * year) + YearLength(year)
  {
    for m := 0 to 12
      invariant MonthStart(12 * year + m) == MonthStart(12 * year)
                + [0, 31, 59, 90, 120, 151, 181, 212, 243, 273, 304, 334, 365][m]
                + (if m > 1 && IsLeapYear(year) then 1 else 0)
    {
      MonthStep(12 * year + m);
      assert YearOfMonth(12 * year + m) == year;
    }
  }

  function YearStart(year: int): int
    decreases if year < 0 then -year else year
  {
    if year == 0 then 0
    else if year > 0 then YearStart(year - 1) + YearLength(year - 1)
    else YearStart(year + 1) - YearLength(year)
  }

  lemma {:induction false} YearsOfMonths(year: int)
    ensures MonthStart(12 * year) == YearStart(year)
    decreases if year < 0 then -year else year
  {
    if year > 0 {
      YearsOfMonths(year - 1);
      TwelveMonths(year - 1);
    } else if year < 0 {
      YearsOfMonths(year + 1);
      TwelveMonths(year);
    }
  }

  lemma {:induction false} YearsOfDays(year: int)
    ensures DaysBeforeYear(year) == YearStart(year)
    decreases if year < 0 then -year else year
  {
    if year > 0 {
      YearsOfDays(year - 1);
      YearStep(year - 1);
    } else if year < 0 {
      YearsOfDays(year + 1);
      YearStep(year);
    }
  }

  lemma YearStartClosedForm(year: int)
    ensures MonthStart(12 * year) == DaysBeforeYear(year)
  {
    YearsOfMonths(year);
    YearsOfDays(year);
  }

  /** A local date and time of day (in nanoseconds) at a fixed offset from UTC (in seconds). */
  datatype Stamp = Stamp(year: int, month: int, day: int, timeOfDay: int, offset: int)
  {
    predicate Valid() {
      1 <= month <= 12 && 1 <= day <= MonthLength(year, month) && 0 <= timeOfDay < NANOS_PER_DAY
    }

    function MonthIndex(): int { 12 * year + month - 1 }

    function Day(): int { MonthStart(MonthIndex()) + day - 1 }

    function Instant(): int {
      (Day() - EPOCH_DAY) * NANOS_PER_DAY + timeOfDay - offset * NANOS_PER_SECOND
    }
  }

  /** The date of a day in its month. */
  function DateOfDay(n: int, index: int, timeOfDay: int, offset: int): (s: Stamp)
    requires MonthStart(index) <= n < MonthStart(index + 1) && 0 <= timeOfDay < NANOS_PER_DAY
    ensures s.Valid() && s.Day() == n && s.timeOfDay == timeOfDay && s.offset == offset
  {
    MonthStep(index);
    Stamp(YearOfMonth(index), MonthInYear(index), n - MonthStart(index) + 1, timeOfDay, offset)
  }

  lemma DayAndTime(local: int)
    ensures local == local / NANOS_PER_DAY * NANOS_PER_DAY + local % NANOS_PER_DAY
    ensures 0 <= local % NANOS_PER_DAY < NANOS_PER_DAY
  {
  }

  /** The local time of an instant at an offset. */
  function AtOffset(instant: int, offset: int): (s: Stamp)
    ensures s.Valid() && s.offset == offset
    ensures s.Instant() == instant
  {
    hide MonthStart, YearOfMonth;
    var local := instant + offset * NANOS_PER_SECOND;
    var n := local / NANOS_PER_DAY + EPOCH_DAY;
    DayAndTime(local);
    DateOfDay(n, MonthOfDay(n, EPOCH_MONTH), local % NANOS_PER_DAY, offset)
  }

  lemma MonthOfStamp(s: Stamp)
    requires s.Valid()
    ensures YearOfMonth(s.MonthIndex()) == s.year && MonthInYear(s.MonthIndex()) == s.month
    ensures LengthOfMonth(s.MonthIndex()) == MonthLength(s.year, s.month)
    ensures MonthStart(s.MonthIndex()) <= s.Day() < MonthStart(s.MonthIndex() + 1)
  {
    MonthStep(s.MonthIndex());
  }

  lemma SplitInstant(day: int, time: int)
    requires 0 <= time < NANOS_PER_DAY
    ensures (day * NANOS_PER_DAY + time) / NANOS_PER_DAY == day
    ensures (day * NANOS_PER_DAY + time) % NANOS_PER_DAY == time
  {
  }

  /** At one offset, an instant has one local time. */
  lemma LocalTimeIsUnique(a: Stamp, b: Stamp)
    requires a.Valid() && b.Valid() && a.offset == b.offset && a.Instant() == b.Instant()
    ensures a == b
  {
    SplitInstant(a.Day() - EPOCH_DAY, a.timeOfDay);
    SplitInstant(b.Day() - EPOCH_DAY, b.timeOfDay);
    assert a.Day() == b.Day() && a.timeOfDay == b.timeOfDay;
    MonthOfStamp(a);
    MonthOfStamp(b);
    MonthOfDayIsUnique(a.Day(), a.MonthIndex(), b.MonthIndex());
  }

  /** Reading a stamp's instant back at the stamp's own offset gives the stamp. */
  lemma InstantRoundTrip(s: Stamp)
    requires s.Valid()
    ensures AtOffset(s.Instant(), s.offset) == s
  {
    LocalTimeIsUnique(AtOffset(s.Instant(), s.offset), s);
  }
}
