/** Traffic billing cycles: monthly anchors with day clamping, the search from the last reset,
    and the inferred start when the last reset is unknown or lies in the future. */
module Cycles {
  import opened Calendar
  import opened Wrappers

  const MIN_YEAR := -9999
  const MAX_YEAR := 9999
  const PROVIDER_OFFSET := 28_800

  /** The dates the program's calendar can hold. */
  predicate Representable(s: Stamp) {
    s.Valid() && MIN_YEAR <= s.year <= MAX_YEAR
  }

  /** The year and month are the Euclidean quotient and remainder of the month number. */
  function ShiftYearMonth(year: int, month: int, offset: int): (int, int) {
    var total := year * 12 + (month - 1) + offset;
    (YearOfMonth(total), MonthInYear(total))
  }

  lemma ShiftDividesByTwelve(year: int, month: int, offset: int)
    ensures var total := year * 12 + (month - 1) + offset;
            ShiftYearMonth(year, month, offset) == (total / 12, total % 12 + 1)
  {
    YearIsAQuotient(year * 12 + (month - 1) + offset);
  }

  function FirstOfMonth(year: int, month: int): Option<int> {
    if MIN_YEAR <= year <= MAX_YEAR then Some(MonthStart(12 * year + month - 1)) else None
  }

  /** The length of a month, measured up to the first of the next month. */
  function DaysInMonth(year: int, month: int): Option<int> {
    var next := ShiftYearMonth(year, month, 1);
    match (FirstOfMonth(year, month), FirstOfMonth(next.0, next.1))
    case (Some(first), Some(firstOfNext)) => Some(firstOfNext - first)
    case _ => None
  }

  function Clamp(value: int, low: int, high: int): int {
    if value < low then low else if value > high then high else value
  }

  function CreateMonthlyAnchor(reference: Stamp, monthOffset: int, resetDay: int, timeOfDay: int): Option<Stamp> {
    var (year, month) := ShiftYearMonth(reference.year, reference.month, monthOffset);
    match DaysInMonth(year, month)
    case None => None
    case Some(lastDay) => Some(Stamp(year, month, Clamp(resetDay, 1, lastDay), timeOfDay, reference.offset))
  }

  /** An anchor needs both its own month and the next one to be representable. */
  predicate HasAnchor(index: int) {
    12 * MIN_YEAR <= index < 12 * MAX_YEAR + 11
  }

  /** The reset day, or the nearest day that the month has. */
  function AnchorDay(index: int, resetDay: int): (day: int)
    ensures 1 <= day <= LengthOfMonth(index)
    ensures 1 <= resetDay <= LengthOfMonth(index) ==> day == resetDay
    ensures resetDay < 1 ==> day == 1
    ensures resetDay > LengthOfMonth(index) ==> day == LengthOfMonth(index)
  {
    Clamp(resetDay, 1, LengthOfMonth(index))
  }

  function AnchorIn(index: int, resetDay: int, timeOfDay: int, offset: int): Stamp {
    Stamp(YearOfMonth(index), MonthInYear(index), AnchorDay(index, resetDay), timeOfDay, offset)
  }

  /** The k-th cycle boundary of the chain that starts at `start`: one jump of k months. */
  function Jump(start: Stamp, k: nat, resetDay: int): Stamp {
    if k == 0 then start else AnchorIn(start.MonthIndex() + k, resetDay, start.timeOfDay, start.offset)
  }

  lemma ShiftedIndex(year: int, month: int, offset: int)
    ensures var shifted := ShiftYearMonth(year, month, offset);
            && shifted == (YearOfMonth(12 * year + month - 1 + offset), MonthInYear(12 * year + month - 1 + offset))
            && 1 <= shifted.1 <= 12
            && 12 * shifted.0 + shifted.1 - 1 == 12 * year + month - 1 + offset
  {
  }

  lemma FirstOfNextMonth(year: int, month: int)
    requires 1 <= month <= 12
    ensures var index, next := 12 * year + month - 1, ShiftYearMonth(year, month, 1);
            && FirstOfMonth(next.0, next.1)
               == (if MIN_YEAR <= next.0 <= MAX_YEAR then Some(MonthStart(index + 1)) else None)
            && (HasAnchor(index) <==> MIN_YEAR <= year <= MAX_YEAR && MIN_YEAR <= next.0 <= MAX_YEAR)
  {
    ShiftedIndex(year, month, 1);
  }

  lemma MeasuredLength(year: int, month: int)
    requires 1 <= month <= 12
    ensures DaysInMonth(year, month)
            == if HasAnchor(12 * year + month - 1) then Some(LengthOfMonth(12 * year + month - 1)) else None
  {
    hide LengthOfMonth;
    MonthStep(12 * year + month - 1);
    FirstOfNextMonth(year, month);
  }

  lemma AnchorMonth(index: int, resetDay: int, timeOfDay: int, offset: int)
    requires 0 <= timeOfDay < NANOS_PER_DAY
    ensures var a := AnchorIn(index, resetDay, timeOfDay, offset);
            a.Valid() && a.MonthIndex() == index && a.Day() == MonthStart(index) + AnchorDay(index, resetDay) - 1
    ensures HasAnchor(index) ==> Representable(AnchorIn(index, resetDay, timeOfDay, offset))
  {
  }

  lemma AnchorByIndex(reference: Stamp, k: int, resetDay: int, timeOfDay: int)
    requires reference.Valid()
    ensures CreateMonthlyAnchor(reference, k, resetDay, timeOfDay)
            == if HasAnchor(reference.MonthIndex() + k)
               then Some(AnchorIn(reference.MonthIndex() + k, resetDay, timeOfDay, reference.offset)) else None
  {
    var (year, month) := ShiftYearMonth(reference.year, reference.month, k);
    var index := reference.MonthIndex() + k;
    ShiftedIndex(reference.year, reference.month, k);
    assert index == 12 * year + month - 1;
    MeasuredLength(year, month);
    assert AnchorIn(index, resetDay, timeOfDay, reference.offset)
           == Stamp(year, month, Clamp(resetDay, 1, LengthOfMonth(index)), timeOfDay, reference.offset);
  }

  lemma JumpMonth(s: Stamp, k: nat, resetDay: int)
    requires s.Valid()
    ensures var a := Jump(s, k, resetDay);
            a.Valid() && a.MonthIndex() == s.MonthIndex() + k && a.timeOfDay == s.timeOfDay && a.offset == s.offset
  {
    if k > 0 {
      AnchorMonth(s.MonthIndex() + k, resetDay, s.timeOfDay, s.offset);
    }
  }

  // No drift: the chain of single-month steps is the chain of jumps.

  /** A jump of b months from the a-month boundary is a jump of a + b months. */
  lemma JumpsCompose(s: Stamp, a: nat, b: nat, resetDay: int)
    requires s.Valid()
    ensures Jump(Jump(s, a, resetDay), b, resetDay) == Jump(s, a + b, resetDay)
  {
    JumpMonth(s, a, resetDay);
  }

  /** k single-month anchor steps, stopping at the first that the calendar cannot hold. */
  function SingleSteps(start: Stamp, k: nat, resetDay: int): Option<Stamp> {
    if k == 0 then Some(start)
    else match SingleSteps(start, k - 1, resetDay)
      case None => None
      case Some(s) => CreateMonthlyAnchor(s, 1, resetDay, s.timeOfDay)
  }

  lemma StepFromJump(start: Stamp, k: nat, resetDay: int)
    requires start.Valid()
    ensures CreateMonthlyAnchor(Jump(start, k, resetDay), 1, resetDay, start.timeOfDay)
            == if HasAnchor(start.MonthIndex() + k + 1) then Some(Jump(start, k + 1, resetDay)) else None
  {
    JumpMonth(start, k, resetDay);
    AnchorByIndex(Jump(start, k, resetDay), 1, resetDay, start.timeOfDay);
  }

  lemma {:induction false} SingleStepsAreOneJump(start: Stamp, k: nat, resetDay: int)
    requires Representable(start) && k > 0
    ensures SingleSteps(start, k, resetDay) == CreateMonthlyAnchor(start, k, resetDay, start.timeOfDay)
    ensures SingleSteps(start, k, resetDay)
            == if HasAnchor(start.MonthIndex() + k) then Some(Jump(start, k, resetDay)) else None
  {
    hide MonthStart, YearOfMonth, LengthOfMonth, CreateMonthlyAnchor;
    AnchorByIndex(start, k, resetDay, start.timeOfDay);
    StepFromJump(start, k - 1, resetDay);
    if k > 1 {
      SingleStepsAreOneJump(start, k - 1, resetDay);
      JumpMonth(start, k - 1, resetDay);
    } else {
      assert SingleSteps(start, 0, resetDay) == Some(start);
    }
  }

  lemma LaterMonthIsLater(a: Stamp, b: Stamp)
    requires a.Valid() && b.Valid() && a.timeOfDay == b.timeOfDay && a.offset == b.offset
    requires a.MonthIndex() < b.MonthIndex()
    ensures a.Instant() + NANOS_PER_DAY <= b.Instant()
  {
    MonthOfStamp(a);
    MonthOfStamp(b);
    MonthsAreOrdered(a.MonthIndex() + 1, b.MonthIndex());
  }

  lemma JumpsAreOrdered(s: Stamp, i: nat, j: nat, resetDay: int)
    requires s.Valid() && i < j
    ensures Jump(s, i, resetDay).Instant() < Jump(s, j, resetDay).Instant()
  {
    JumpMonth(s, i, resetDay);
    JumpMonth(s, j, resetDay);
    LaterMonthIsLater(Jump(s, i, resetDay), Jump(s, j, resetDay));
  }

  // The cycle window.

  lemma StepAdvances(candidate: Stamp, resetDay: int)
    requires candidate.Valid()
    ensures match CreateMonthlyAnchor(candidate, 1, resetDay, candidate.timeOfDay)
            case None => !HasAnchor(candidate.MonthIndex() + 1)
            case Some(next) =>
              HasAnchor(candidate.MonthIndex() + 1) && Representable(next)
              && next == Jump(candidate, 1, resetDay) && candidate.Instant() < next.Instant()
  {
    AnchorByIndex(candidate, 1, resetDay, candidate.timeOfDay);
    JumpMonth(candidate, 1, resetDay);
    JumpsAreOrdered(candidate, 0, 1, resetDay);
    AnchorMonth(candidate.MonthIndex() + 1, resetDay, candidate.timeOfDay, candidate.offset);
  }

  function SearchStart(candidate: Stamp, resetDay: int, reference: Stamp): Option<Stamp>
    requires candidate.Valid() && candidate.Instant() <= reference.Instant()
    decreases reference.Instant() - candidate.Instant()
  {
    StepAdvances(candidate, resetDay);
    match CreateMonthlyAnchor(candidate, 1, resetDay, candidate.timeOfDay)
    case None => None
    case Some(next) =>
      if next.Instant() > reference.Instant() then Some(candidate)
      else SearchStart(next, resetDay, reference)
  }

  function CycleReferenceTime(reference: Stamp): Stamp {
    if reference.offset == 0 then AtOffset(reference.Instant(), PROVIDER_OFFSET) else reference
  }

  function InferCycleStart(resetDay: int, reference: Stamp): Option<Stamp> {
    match CreateMonthlyAnchor(reference, 0, resetDay, 0)
    case None => None
    case Some(currentMonthAnchor) =>
      if currentMonthAnchor.Instant() <= reference.Instant() then Some(currentMonthAnchor)
      else CreateMonthlyAnchor(reference, -1, resetDay, 0)
  }

  function CycleStart(resetDay: int, lastReset: Option<Stamp>, reference: Stamp): Option<Stamp>
    requires lastReset.Some? ==> lastReset.value.Valid()
  {
    if lastReset.Some? && lastReset.value.Instant() <= reference.Instant()
    then SearchStart(lastReset.value, resetDay, reference)
    else InferCycleStart(resetDay, CycleReferenceTime(reference))
  }

  function CycleWindow(resetDay: int, lastReset: Option<Stamp>, reference: Stamp): Option<(Stamp, Stamp)>
    requires lastReset.Some? ==> lastReset.value.Valid()
  {
    match CycleStart(resetDay, lastReset, reference)
    case None => None
    case Some(start) =>
      match CreateMonthlyAnchor(start, 1, resetDay, start.timeOfDay)
      case None => None
      case Some(end) => if end.Instant() > start.Instant() then Some((start, end)) else None
  }

  /** The search loop. It terminates, and its guard against a boundary that does not advance
      is never taken. */
  method ComputeTrafficCycleStart(resetDay: int, lastReset: Option<Stamp>, reference: Stamp)
    returns (start: Option<Stamp>)
    requires lastReset.Some? ==> lastReset.value.Valid()
    ensures start == CycleStart(resetDay, lastReset, reference)
  {
    if lastReset.Some? {
      var candidateStart := lastReset.value;
      while candidateStart.Instant() <= reference.Instant()
        invariant candidateStart.Valid()
        invariant lastReset.value.Instant() <= reference.Instant()
                  ==> candidateStart.Instant() <= reference.Instant()
                      && CycleStart(resetDay, lastReset, reference) == SearchStart(candidateStart, resetDay, reference)
        invariant lastReset.value.Instant() > reference.Instant() ==> candidateStart == lastReset.value
        decreases reference.Instant() - candidateStart.Instant()
      {
        StepAdvances(candidateStart, resetDay);
        var step := CreateMonthlyAnchor(candidateStart, 1, resetDay, candidateStart.timeOfDay);
        if step.None? {
          return None;
        }
        var candidateEnd := step.value;
        if candidateEnd.Instant() > reference.Instant() {
          return Some(candidateStart);
        }
        if candidateEnd.Instant() <= candidateStart.Instant() {
          assert false;
          break;
        }
        candidateStart := candidateEnd;
      }
    }
    start := InferCycleStart(resetDay, CycleReferenceTime(reference));
  }

  method ComputeTrafficCycleWindow(resetDay: int, lastReset: Option<Stamp>, reference: Stamp)
    returns (window: Option<(Stamp, Stamp)>)
    requires lastReset.Some? ==> lastReset.value.Valid()
    ensures window == CycleWindow(resetDay, lastReset, reference)
  {
    var start := ComputeTrafficCycleStart(resetDay, lastReset, reference);
    if start.None? {
      return None;
    }
    var end := CreateMonthlyAnchor(start.value, 1, resetDay, start.value.timeOfDay);
    if end.None? {
      return None;
    }
    window := if end.value.Instant() > start.value.Instant() then Some((start.value, end.value)) else None;
  }

  predicate Contains(window: (Stamp, Stamp), instant: int) {
    window.0.Instant() <= instant < window.1.Instant()
  }

  /** The k-th window of the chain that starts at `s`. */
  function ChainWindow(s: Stamp, k: nat, resetDay: int): (Stamp, Stamp) {
    (Jump(s, k, resetDay), Jump(s, k + 1, resetDay))
  }

  lemma {:induction false} SearchFromChain(s: Stamp, i: nat, k: nat, resetDay: int, reference: Stamp)
    requires Representable(s) && i <= k
    requires Contains(ChainWindow(s, k, resetDay), reference.Instant())
    ensures Jump(s, i, resetDay).Valid() && Jump(s, i, resetDay).Instant() <= reference.Instant()
    ensures SearchStart(Jump(s, i, resetDay), resetDay, reference)
            == if HasAnchor(s.MonthIndex() + k + 1) then Some(Jump(s, k, resetDay)) else None
    decreases k - i
  {
    hide MonthStart, YearOfMonth, LengthOfMonth;
    var candidate := Jump(s, i, resetDay);
    JumpMonth(s, i, resetDay);
    StepAdvances(candidate, resetDay);
    JumpsCompose(s, i, 1, resetDay);
    if i < k {
      JumpsAreOrdered(s, i, k, resetDay);
      SearchFromChain(s, i + 1, k, resetDay, reference);
    }
  }

  /** Every instant from the reset on lies in a window of the chain. */
  function ChainIndex(s: Stamp, from: nat, resetDay: int, instant: int): (k: nat)
    requires s.Valid() && Jump(s, from, resetDay).Instant() <= instant
    ensures k >= from && Contains(ChainWindow(s, k, resetDay), instant)
    decreases instant - Jump(s, from, resetDay).Instant()
  {
    JumpsAreOrdered(s, from, from + 1, resetDay);
    if instant < Jump(s, from + 1, resetDay).Instant() then from
    else ChainIndex(s, from + 1, resetDay, instant)
  }

  lemma EarlierWindowsEnd(s: Stamp, i: nat, k: nat, resetDay: int)
    requires s.Valid() && i < k
    ensures ChainWindow(s, i, resetDay).1.Instant() <= ChainWindow(s, k, resetDay).0.Instant()
  {
    if i + 1 < k {
      JumpsAreOrdered(s, i + 1, k, resetDay);
    }
  }

  lemma ChainIndexIsUnique(s: Stamp, i: nat, k: nat, resetDay: int, instant: int)
    requires s.Valid()
    requires Contains(ChainWindow(s, i, resetDay), instant) && Contains(ChainWindow(s, k, resetDay), instant)
    ensures i == k
  {
    if i < k {
      EarlierWindowsEnd(s, i, k, resetDay);
    } else if k < i {
      EarlierWindowsEnd(s, k, i, resetDay);
    }
  }

  /** From the last reset on, the window is the chain window that holds the reference, and it
      is missing exactly when the calendar cannot hold that window's end. */
  lemma WindowAfterReset(resetDay: int, s: Stamp, reference: Stamp, k: nat)
    requires Representable(s)
    requires Contains(ChainWindow(s, k, resetDay), reference.Instant())
    ensures s.Instant() <= reference.Instant()
    ensures CycleWindow(resetDay, Some(s), reference)
            == if HasAnchor(s.MonthIndex() + k + 1) then Some(ChainWindow(s, k, resetDay)) else None
  {
    hide MonthStart, YearOfMonth, LengthOfMonth;
    SearchFromChain(s, 0, k, resetDay, reference);
    JumpMonth(s, k, resetDay);
    JumpsCompose(s, k, 1, resetDay);
    StepAdvances(Jump(s, k, resetDay), resetDay);
  }

  /** Restarting the search from any boundary at or before the reference gives the same window. */
  lemma RestartingDoesNotDrift(resetDay: int, s: Stamp, k: nat, reference: Stamp)
    requires Representable(s) && Representable(Jump(s, k, resetDay))
    requires Jump(s, k, resetDay).Instant() <= reference.Instant()
    ensures CycleWindow(resetDay, Some(Jump(s, k, resetDay)), reference) == CycleWindow(resetDay, Some(s), reference)
  {
    hide MonthStart, YearOfMonth, LengthOfMonth;
    var restart := Jump(s, k, resetDay);
    var i := ChainIndex(restart, 0, resetDay, reference.Instant());
    JumpMonth(s, k, resetDay);
    JumpsCompose(s, k, i, resetDay);
    JumpsCompose(s, k, i + 1, resetDay);
    WindowAfterReset(resetDay, restart, reference, i);
    WindowAfterReset(resetDay, s, reference, k + i);
  }

  /** Exactly when there is a window: the reference lies before the last boundary of the chain
      that the calendar can hold. */
  lemma WindowExistsUpToTheLastBoundary(resetDay: int, s: Stamp, reference: Stamp)
    requires Representable(s) && s.Instant() <= reference.Instant()
    ensures CycleWindow(resetDay, Some(s), reference).Some?
            <==> HasAnchor(s.MonthIndex() + 1)
                 && reference.Instant() < Jump(s, 12 * MAX_YEAR + 10 - s.MonthIndex(), resetDay).Instant()
  {
    hide MonthStart, YearOfMonth, LengthOfMonth;
    var k := ChainIndex(s, 0, resetDay, reference.Instant());
    WindowAfterReset(resetDay, s, reference, k);
    var last := 12 * MAX_YEAR + 10 - s.MonthIndex();
    if HasAnchor(s.MonthIndex() + 1) {
      if k + 1 < last {
        JumpsAreOrdered(s, k + 1, last, resetDay);
      } else if last < k {
        JumpsAreOrdered(s, last, k, resetDay);
      }
    }
  }

  // The inferred start.

  /** The month whose anchor starts the inferred window of a local reference. */
  function InferredMonth(resetDay: int, local: Stamp): int {
    var m := local.MonthIndex();
    if AnchorIn(m, resetDay, 0, local.offset).Instant() <= local.Instant() then m else m - 1
  }

  /** The window between the midnight anchors of a month and the next. */
  function MidnightWindow(index: int, resetDay: int, offset: int): (Stamp, Stamp) {
    (AnchorIn(index, resetDay, 0, offset), AnchorIn(index + 1, resetDay, 0, offset))
  }

  lemma AnchorsAround(resetDay: int, local: Stamp)
    requires local.Valid()
    ensures AnchorIn(local.MonthIndex() - 1, resetDay, 0, local.offset).Instant() <= local.Instant()
    ensures local.Instant() < AnchorIn(local.MonthIndex() + 1, resetDay, 0, local.offset).Instant()
  {
    var m := local.MonthIndex();
    var midnight := local.(timeOfDay := 0);
    AnchorMonth(m - 1, resetDay, 0, local.offset);
    AnchorMonth(m + 1, resetDay, 0, local.offset);
    LaterMonthIsLater(AnchorIn(m - 1, resetDay, 0, local.offset), midnight);
    LaterMonthIsLater(midnight, AnchorIn(m + 1, resetDay, 0, local.offset));
    assert midnight.Instant() <= local.Instant() < midnight.Instant() + NANOS_PER_DAY;
  }

  lemma InferredContains(resetDay: int, local: Stamp)
    requires local.Valid()
    ensures Contains(MidnightWindow(InferredMonth(resetDay, local), resetDay, local.offset), local.Instant())
  {
    AnchorsAround(resetDay, local);
  }

  lemma InferredFromThisMonth(resetDay: int, local: Stamp)
    requires local.Valid() && HasAnchor(local.MonthIndex())
    ensures var anchor := AnchorIn(local.MonthIndex(), resetDay, 0, local.offset);
            anchor.Instant() <= local.Instant() ==> InferCycleStart(resetDay, local) == Some(anchor)
  {
    hide MonthStart, YearOfMonth, LengthOfMonth;
    AnchorByIndex(local, 0, resetDay, 0);
  }

  lemma InferredFromLastMonth(resetDay: int, local: Stamp)
    requires local.Valid() && HasAnchor(local.MonthIndex())
    ensures var m := local.MonthIndex();
            AnchorIn(m, resetDay, 0, local.offset).Instant() > local.Instant() ==>
              InferCycleStart(resetDay, local)
              == if HasAnchor(m - 1) then Some(AnchorIn(m - 1, resetDay, 0, local.offset)) else None
  {
    hide MonthStart, YearOfMonth, LengthOfMonth;
    AnchorByIndex(local, 0, resetDay, 0);
    AnchorByIndex(local, -1, resetDay, 0);
  }

  lemma InferredStart(resetDay: int, local: Stamp)
    requires local.Valid()
    ensures InferCycleStart(resetDay, local)
            == if HasAnchor(local.MonthIndex()) && HasAnchor(InferredMonth(resetDay, local))
               then Some(AnchorIn(InferredMonth(resetDay, local), resetDay, 0, local.offset)) else None
  {
    hide MonthStart, YearOfMonth, LengthOfMonth;
    if HasAnchor(local.MonthIndex()) {
      InferredFromThisMonth(resetDay, local);
      InferredFromLastMonth(resetDay, local);
    } else {
      AnchorByIndex(local, 0, resetDay, 0);
    }
  }

  lemma MidnightStep(index: int, resetDay: int, offset: int)
    ensures var (start, end) := MidnightWindow(index, resetDay, offset);
            && start.Instant() < end.Instant()
            && CreateMonthlyAnchor(start, 1, resetDay, start.timeOfDay)
               == if HasAnchor(index + 1) then Some(end) else None
  {
    AnchorMonth(index, resetDay, 0, offset);
    AnchorMonth(index + 1, resetDay, 0, offset);
    AnchorByIndex(AnchorIn(index, resetDay, 0, offset), 1, resetDay, 0);
    LaterMonthIsLater(AnchorIn(index, resetDay, 0, offset), AnchorIn(index + 1, resetDay, 0, offset));
  }

  /** Without a usable last reset, the window lies between two consecutive midnight anchors. */
  lemma WindowInferred(resetDay: int, lastReset: Option<Stamp>, reference: Stamp)
    requires reference.Valid()
    requires lastReset.Some? ==> (lastReset.value.Valid() && reference.Instant() < lastReset.value.Instant())
    ensures var local := CycleReferenceTime(reference);
            var start := InferredMonth(resetDay, local);
            && Contains(MidnightWindow(start, resetDay, local.offset), reference.Instant())
            && CycleWindow(resetDay, lastReset, reference)
               == if HasAnchor(local.MonthIndex()) && HasAnchor(start) && HasAnchor(start + 1)
                  then Some(MidnightWindow(start, resetDay, local.offset)) else None
  {
    hide MonthStart, YearOfMonth, LengthOfMonth;
    var local := CycleReferenceTime(reference);
    var start := InferredMonth(resetDay, local);
    InferredStart(resetDay, local);
    InferredContains(resetDay, local);
    MidnightStep(start, resetDay, local.offset);
  }

  /** The cycle window contains its reference, whichever way its start was found. */
  lemma WindowContainsReference(resetDay: int, lastReset: Option<Stamp>, reference: Stamp)
    requires reference.Valid()
    requires lastReset.Some? ==> Representable(lastReset.value)
    ensures var window := CycleWindow(resetDay, lastReset, reference);
            window.Some? ==> Contains(window.value, reference.Instant())
  {
    if lastReset.Some? && lastReset.value.Instant() <= reference.Instant() {
      var k := ChainIndex(lastReset.value, 0, resetDay, reference.Instant());
      WindowAfterReset(resetDay, lastReset.value, reference, k);
    } else {
      WindowInferred(resetDay, lastReset, reference);
    }
  }

  // Windows of different references.

  predicate Disjoint(a: (Stamp, Stamp), b: (Stamp, Stamp)) {
    a.1.Instant() <= b.0.Instant() || b.1.Instant() <= a.0.Instant()
  }

  /** Two windows tile time: they coincide or are disjoint, and the second begins where the
      first ends if it holds that instant. */
  predicate Tile(a: (Stamp, Stamp), b: (Stamp, Stamp)) {
    && (a == b || Disjoint(a, b))
    && (Contains(b, a.1.Instant()) ==> b.0 == a.1)
  }

  lemma ChainWindowsTile(s: Stamp, i: nat, k: nat, resetDay: int)
    requires s.Valid()
    ensures Tile(ChainWindow(s, i, resetDay), ChainWindow(s, k, resetDay))
  {
    hide MonthStart, YearOfMonth, LengthOfMonth;
    var a, b := ChainWindow(s, i, resetDay), ChainWindow(s, k, resetDay);
    JumpsAreOrdered(s, i, i + 1, resetDay);
    assert a == b || Disjoint(a, b) by {
      if i < k {
        EarlierWindowsEnd(s, i, k, resetDay);
      } else if k < i {
        EarlierWindowsEnd(s, k, i, resetDay);
      }
    }
    if Contains(b, a.1.Instant()) {
      EndStartsTheNext(s, i, k, resetDay);
    }
  }

  lemma EndStartsTheNext(s: Stamp, i: nat, k: nat, resetDay: int)
    requires s.Valid() && Contains(ChainWindow(s, k, resetDay), ChainWindow(s, i, resetDay).1.Instant())
    ensures k == i + 1
  {
    var end := ChainWindow(s, i, resetDay).1.Instant();
    JumpsAreOrdered(s, i + 1, i + 2, resetDay);
    assert Contains(ChainWindow(s, i + 1, resetDay), end);
    ChainIndexIsUnique(s, i + 1, k, resetDay, end);
  }

  lemma MidnightWindowsTile(i: int, k: int, resetDay: int, offset: int)
    ensures Tile(MidnightWindow(i, resetDay, offset), MidnightWindow(k, resetDay, offset))
  {
    hide MonthStart, YearOfMonth, LengthOfMonth;
    var first := if i < k then i else k;
    var s := AnchorIn(first, resetDay, 0, offset);
    AnchorMonth(first, resetDay, 0, offset);
    ChainWindowsTile(s, i - first, k - first, resetDay);
  }

  /** After the last reset, windows tile time. */
  lemma WindowsAfterResetTile(resetDay: int, s: Stamp, first: Stamp, second: Stamp)
    requires Representable(s) && s.Instant() <= first.Instant() && s.Instant() <= second.Instant()
    ensures var a, b := CycleWindow(resetDay, Some(s), first), CycleWindow(resetDay, Some(s), second);
            a.Some? && b.Some? ==> Tile(a.value, b.value)
  {
    var i, k := ChainIndex(s, 0, resetDay, first.Instant()), ChainIndex(s, 0, resetDay, second.Instant());
    WindowAfterReset(resetDay, s, first, i);
    WindowAfterReset(resetDay, s, second, k);
    ChainWindowsTile(s, i, k, resetDay);
  }

  /** Before it, they do for references that are read at the same local offset. */
  lemma InferredWindowsTile(resetDay: int, lastReset: Option<Stamp>, first: Stamp, second: Stamp)
    requires first.Valid() && second.Valid()
    requires CycleReferenceTime(first).offset == CycleReferenceTime(second).offset
    requires lastReset.Some? ==> (lastReset.value.Valid()
                                  && first.Instant() < lastReset.value.Instant()
                                  && second.Instant() < lastReset.value.Instant())
    ensures var a, b := CycleWindow(resetDay, lastReset, first), CycleWindow(resetDay, lastReset, second);
            a.Some? && b.Some? ==> Tile(a.value, b.value)
  {
    WindowInferred(resetDay, lastReset, first);
    WindowInferred(resetDay, lastReset, second);
    var local1, local2 := CycleReferenceTime(first), CycleReferenceTime(second);
    MidnightWindowsTile(InferredMonth(resetDay, local1), InferredMonth(resetDay, local2), resetDay, local1.offset);
  }

  // Windows on both sides of the last reset.

  /** The reset is itself a midnight anchor of the reset day, read at the offset. */
  predicate IsMidnightAnchor(resetDay: int, s: Stamp, offset: int) {
    var local := AtOffset(s.Instant(), offset);
    local.timeOfDay == 0 && local.day == AnchorDay(local.MonthIndex(), resetDay)
  }

  /** Some reference before the reset, read at the offset, has a window that overlaps the window
      of some reference at or after it. */
  ghost predicate OverlapsAcross(resetDay: int, s: Stamp, offset: int)
    requires s.Valid()
  {
    exists before: Stamp, after: Stamp :: WindowsOverlap(resetDay, s, offset, before, after)
  }

  predicate WindowsOverlap(resetDay: int, s: Stamp, offset: int, before: Stamp, after: Stamp)
    requires s.Valid()
  {
    && before.Valid() && after.Valid() && CycleReferenceTime(before).offset == offset
    && before.Instant() < s.Instant() <= after.Instant()
    && var a, b := CycleWindow(resetDay, Some(s), before), CycleWindow(resetDay, Some(s), after);
    && a.Some? && b.Some? && !Disjoint(a.value, b.value)
  }

  /** The month of the midnight anchor at or before the reset. */
  function MonthOfReset(resetDay: int, s: Stamp, offset: int): int {
    InferredMonth(resetDay, AtOffset(s.Instant(), offset))
  }

  lemma WindowsHoldOneInstant(resetDay: int, i: int, k: int, offset: int, instant: int)
    requires Contains(MidnightWindow(i, resetDay, offset), instant)
    requires Contains(MidnightWindow(k, resetDay, offset), instant)
    ensures i == k
  {
    MidnightWindowsTile(i, k, resetDay, offset);
    AnchorMonth(i, resetDay, 0, offset);
    AnchorMonth(k, resetDay, 0, offset);
  }

  /** Exactly at a midnight anchor the window around the reset starts at the reset. */
  lemma AnchorStartsAtReset(resetDay: int, s: Stamp, offset: int)
    ensures var start := MidnightWindow(MonthOfReset(resetDay, s, offset), resetDay, offset).0;
            && start.Instant() <= s.Instant()
            && (start.Instant() == s.Instant() <==> IsMidnightAnchor(resetDay, s, offset))
  {
    var local := AtOffset(s.Instant(), offset);
    var month := MonthOfReset(resetDay, s, offset);
    var start := AnchorIn(month, resetDay, 0, offset);
    InferredContains(resetDay, local);
    AnchorMonth(month, resetDay, 0, offset);
    if start.Instant() == s.Instant() {
      LocalTimeIsUnique(start, local);
    }
    if IsMidnightAnchor(resetDay, s, offset) {
      MonthOfStamp(local);
      assert AnchorIn(local.MonthIndex(), resetDay, 0, offset) == local;
    }
  }

  lemma OverlapNeedsAnInsideReset(resetDay: int, s: Stamp, offset: int, before: Stamp, after: Stamp)
    requires Representable(s)
    ensures WindowsOverlap(resetDay, s, offset, before, after) ==>
              var month := MonthOfReset(resetDay, s, offset);
              && offset != 0 && !IsMidnightAnchor(resetDay, s, offset)
              && HasAnchor(month) && HasAnchor(month + 1) && HasAnchor(s.MonthIndex() + 1)
  {
    hide MonthStart, YearOfMonth, LengthOfMonth;
    if WindowsOverlap(resetDay, s, offset, before, after) {
      var k := ChainIndex(s, 0, resetDay, after.Instant());
      var i := InferredMonth(resetDay, CycleReferenceTime(before));
      WindowAfterReset(resetDay, s, after, k);
      WindowInferred(resetDay, Some(s), before);
      if k > 0 {
        JumpsAreOrdered(s, 0, k, resetDay);
      }
      InferredContains(resetDay, AtOffset(s.Instant(), offset));
      WindowsHoldOneInstant(resetDay, i, MonthOfReset(resetDay, s, offset), offset, s.Instant());
      AnchorStartsAtReset(resetDay, s, offset);
    }
  }

  lemma InsideResetOverlaps(resetDay: int, s: Stamp, offset: int)
    requires Representable(s) && offset != 0
    ensures var month := MonthOfReset(resetDay, s, offset);
            var start := MidnightWindow(month, resetDay, offset).0;
            !IsMidnightAnchor(resetDay, s, offset)
            && HasAnchor(month) && HasAnchor(month + 1) && HasAnchor(s.MonthIndex() + 1)
            ==> WindowsOverlap(resetDay, s, offset, start, s)
  {
    hide MonthStart, YearOfMonth, LengthOfMonth;
    var month := MonthOfReset(resetDay, s, offset);
    if !IsMidnightAnchor(resetDay, s, offset)
       && HasAnchor(month) && HasAnchor(month + 1) && HasAnchor(s.MonthIndex() + 1) {
      var before := MidnightWindow(month, resetDay, offset).0;
      AnchorStartsAtReset(resetDay, s, offset);
      AnchorMonth(month, resetDay, 0, offset);
      InferredContains(resetDay, AtOffset(s.Instant(), offset));
      assert InferredMonth(resetDay, before) == month;
      WindowInferred(resetDay, Some(s), before);
      JumpsAreOrdered(s, 0, 1, resetDay);
      WindowAfterReset(resetDay, s, s, 0);
    }
  }

  /** Across the last reset windows overlap if and only if the reset is not itself a midnight
      anchor of the reset day at the local offset, as far as the calendar holds the boundaries on
      both sides. No reference is read at offset zero. */
  lemma WindowsAcrossReset(resetDay: int, s: Stamp, offset: int)
    requires Representable(s)
    ensures var month := MonthOfReset(resetDay, s, offset);
            OverlapsAcross(resetDay, s, offset)
            <==> && offset != 0 && !IsMidnightAnchor(resetDay, s, offset)
                 && HasAnchor(month) && HasAnchor(month + 1) && HasAnchor(s.MonthIndex() + 1)
  {
    var month := MonthOfReset(resetDay, s, offset);
    if OverlapsAcross(resetDay, s, offset) {
      var before: Stamp, after: Stamp :| WindowsOverlap(resetDay, s, offset, before, after);
      OverlapNeedsAnInsideReset(resetDay, s, offset, before, after);
    }
    if offset != 0 && !IsMidnightAnchor(resetDay, s, offset)
       && HasAnchor(month) && HasAnchor(month + 1) && HasAnchor(s.MonthIndex() + 1) {
      InsideResetOverlaps(resetDay, s, offset);
    }
  }

  const RESET_EXAMPLE := Stamp(2026, 3, 15, 12 * NANOS_PER_HOUR, PROVIDER_OFFSET)

  lemma ExampleBefore(reset: Stamp)
    requires reset == RESET_EXAMPLE
    ensures CycleWindow(1, Some(reset), reset.(day := 14))
            == Some((reset.(day := 1, timeOfDay := 0), reset.(month := 4, day := 1, timeOfDay := 0)))
  {
    hide MonthStart, LengthOfMonth;
    var before := reset.(day := 14);
    var index := before.MonthIndex();
    assert YearOfMonth(index) == 2026 && YearOfMonth(index + 1) == 2026;
    assert AnchorIn(index, 1, 0, PROVIDER_OFFSET) == reset.(day := 1, timeOfDay := 0);
    assert AnchorIn(index + 1, 1, 0, PROVIDER_OFFSET) == reset.(month := 4, day := 1, timeOfDay := 0);
    WindowInferred(1, Some(reset), before);
  }

  lemma ExampleAfter(reset: Stamp)
    requires reset == RESET_EXAMPLE
    ensures CycleWindow(1, Some(reset), reset.(day := 16)) == Some((reset, reset.(month := 4, day := 1)))
  {
    var after, end := reset.(day := 16), reset.(month := 4, day := 1);
    var index := reset.MonthIndex();
    assert YearOfMonth(index + 1) == 2026;
    assert Jump(reset, 1, 1) == end;
    MonthStep(index);
    WindowAfterReset(1, reset, after, 0);
  }

  /** A concrete overlap: with reset day 1 and a last reset at noon on 15 March 2026, the window
      of 14 March runs to 1 April and overlaps the window of 16 March. */
  lemma WindowsCanOverlapAcrossReset(reset: Stamp)
    requires reset == RESET_EXAMPLE
    ensures var before := CycleWindow(1, Some(reset), reset.(day := 14));
            var after := CycleWindow(1, Some(reset), reset.(day := 16));
            before.Some? && after.Some? && !Disjoint(before.value, after.value)
  {
    ExampleBefore(reset);
    ExampleAfter(reset);
    MonthStep(reset.MonthIndex());
  }

  // Cycle lengths.

  predicate WholeDaysLong(window: (Stamp, Stamp), low: int, high: int) {
    window.0.Instant() + low * NANOS_PER_DAY <= window.1.Instant() <= window.0.Instant() + high * NANOS_PER_DAY
  }

  lemma AnchorToAnchor(index: int, resetDay: int, timeOfDay: int, offset: int)
    requires 0 <= timeOfDay < NANOS_PER_DAY
    ensures WholeDaysLong((AnchorIn(index, resetDay, timeOfDay, offset),
            AnchorIn(index + 1, resetDay, timeOfDay, offset)), 28, 31)
  {
    AnchorMonth(index, resetDay, timeOfDay, offset);
    AnchorMonth(index + 1, resetDay, timeOfDay, offset);
    MonthStep(index);
  }

  lemma ChainCycleLength(s: Stamp, k: nat, resetDay: int)
    requires s.Valid()
    ensures WholeDaysLong(ChainWindow(s, k, resetDay), if k == 0 then 1 else 28, if k == 0 then 61 else 31)
    ensures ChainWindow(s, k, resetDay).0 == s <==> k == 0
  {
    if k > 0 {
      AnchorToAnchor(s.MonthIndex() + k, resetDay, s.timeOfDay, s.offset);
      JumpsAreOrdered(s, 0, k, resetDay);
    } else {
      FirstCycleLength(s, resetDay);
    }
  }

  /** A cycle lasts 28 to 31 days, except that the cycle that starts at the reset date itself
      lasts 1 to 61 days. */
  lemma CycleLength(resetDay: int, lastReset: Option<Stamp>, reference: Stamp)
    requires reference.Valid()
    requires lastReset.Some? ==> Representable(lastReset.value)
    ensures var window := CycleWindow(resetDay, lastReset, reference);
            window.Some? ==>
              if lastReset.Some? && window.value.0 == lastReset.value
              then WholeDaysLong(window.value, 1, 61) else WholeDaysLong(window.value, 28, 31)
  {
    if lastReset.Some? && lastReset.value.Instant() <= reference.Instant() {
      var k := ChainIndex(lastReset.value, 0, resetDay, reference.Instant());
      WindowAfterReset(resetDay, lastReset.value, reference, k);
      ChainCycleLength(lastReset.value, k, resetDay);
    } else {
      InferredLength(resetDay, lastReset, reference);
    }
  }

  lemma InferredLength(resetDay: int, lastReset: Option<Stamp>, reference: Stamp)
    requires reference.Valid()
    requires lastReset.Some? ==> Representable(lastReset.value) && reference.Instant() < lastReset.value.Instant()
    ensures var window := CycleWindow(resetDay, lastReset, reference);
            window.Some? ==>
              (lastReset.Some? ==> window.value.0 != lastReset.value) && WholeDaysLong(window.value, 28, 31)
  {
    WindowInferred(resetDay, lastReset, reference);
    var local := CycleReferenceTime(reference);
    AnchorToAnchor(InferredMonth(resetDay, local), resetDay, 0, local.offset);
  }

  lemma FirstCycleLength(s: Stamp, resetDay: int)
    requires s.Valid()
    ensures WholeDaysLong(ChainWindow(s, 0, resetDay), 1, 61)
  {
    JumpMonth(s, 1, resetDay);
    MonthOfStamp(s);
    MonthStep(s.MonthIndex());
    AnchorMonth(s.MonthIndex() + 1, resetDay, s.timeOfDay, s.offset);
    TwoMonths(s.MonthIndex());
  }

  lemma TwoMonths(index: int)
    ensures LengthOfMonth(index) + LengthOfMonth(index + 1) <= 62
  {
  }
}
