/** Hourly traffic samples: how a sample is placed in its cycle and hour, and the table that
    keeps one row per user, service, cycle and hour. */
module TrafficSamples {
  import opened Calendar
  import opened Cycles
  import opened Wrappers

  datatype MachineDetail = MachineDetail(
    serviceId: int,
    usedGb: Option<real>,
    limitGb: Option<real>,
    resetDay: Option<int>,
    lastReset: Option<Stamp>,
    lastPanelSync: Option<Stamp>)

  /** Stored timestamps are UTC texts that name an instant each; they are kept here as instants. */
  datatype Sample = Sample(
    serviceId: int, bucket: int, sampledAt: int, cycleStart: int, cycleEnd: int,
    usedGb: real, limitGb: real, resetDay: int, lastReset: Option<Stamp>)

  /** RFC 3339 has four-digit years only. */
  function FormatTimestamp(instant: int): Option<int> {
    if 0 <= AtOffset(instant, 0).year <= 9999 then Some(instant) else None
  }

  function TruncateToHour(instant: int): (hour: int)
    ensures hour <= instant < hour + NANOS_PER_HOUR
    ensures hour % NANOS_PER_HOUR == 0
  {
    var unixSeconds := instant / NANOS_PER_SECOND;
    var wholeHour := unixSeconds / 3600 * 3600;
    HourIsWhole(unixSeconds);
    wholeHour * NANOS_PER_SECOND
  }

  lemma HourIsWhole(unixSeconds: int)
    ensures (unixSeconds / 3600 * 3600 * NANOS_PER_SECOND) % NANOS_PER_HOUR == 0
  {
    assert unixSeconds / 3600 * 3600 * NANOS_PER_SECOND == (unixSeconds / 3600) * NANOS_PER_HOUR;
  }

  function BuildSample(detail: MachineDetail, freshSnapshot: bool): Option<Sample>
    requires detail.lastReset.Some? ==> detail.lastReset.value.Valid()
  {
    if !freshSnapshot || detail.usedGb.None? || detail.limitGb.None? || detail.resetDay.None?
       || detail.lastPanelSync.None? then None
    else
      var sampledAt := detail.lastPanelSync.value;
      match CycleWindow(detail.resetDay.value, detail.lastReset, sampledAt)
      case None => None
      case Some((start, end)) =>
        match (FormatTimestamp(TruncateToHour(sampledAt.Instant())), FormatTimestamp(sampledAt.Instant()),
               FormatTimestamp(start.Instant()), FormatTimestamp(end.Instant()))
        case (Some(bucket), Some(sampled), Some(cycleStart), Some(cycleEnd)) =>
          Some(Sample(detail.serviceId, bucket, sampled, cycleStart, cycleEnd,
                      detail.usedGb.value, detail.limitGb.value, detail.resetDay.value, detail.lastReset))
        case _ => None
  }

  /** A sample lies in its cycle and in its hour. */
  predicate WellPlaced(s: Sample) {
    && s.cycleStart <= s.sampledAt < s.cycleEnd
    && s.bucket <= s.sampledAt < s.bucket + NANOS_PER_HOUR
    && s.bucket % NANOS_PER_HOUR == 0
  }

  predicate StartsAtReset(s: Sample) {
    s.lastReset.Some? && s.lastReset.value.Instant() == s.cycleStart
  }

  /** The longest a sample's cycle can be, in days. */
  function LongestCycle(s: Sample): int {
    if StartsAtReset(s) then 61 else 31
  }

  /** Every built sample is well placed, in a cycle of bounded length. */
  lemma SamplesAreWellPlaced(detail: MachineDetail, freshSnapshot: bool)
    requires detail.lastReset.Some? ==> Representable(detail.lastReset.value)
    requires detail.lastPanelSync.Some? ==> detail.lastPanelSync.value.Valid()
    ensures var sample := BuildSample(detail, freshSnapshot);
            sample.Some? ==>
              && WellPlaced(sample.value)
              && sample.value.cycleEnd <= sample.value.cycleStart + LongestCycle(sample.value) * NANOS_PER_DAY
  {
    hide MonthStart, YearOfMonth, LengthOfMonth, CycleWindow;
    if detail.resetDay.Some? && detail.lastPanelSync.Some? {
      WindowContainsReference(detail.resetDay.value, detail.lastReset, detail.lastPanelSync.value);
      CycleLength(detail.resetDay.value, detail.lastReset, detail.lastPanelSync.value);
    }
  }

  /** The instants that can be written as text. */
  predicate IsWritable(instant: int) {
    0 <= AtOffset(instant, 0).year <= 9999
  }

  ghost predicate CanBuild(detail: MachineDetail)
    requires detail.lastReset.Some? ==> detail.lastReset.value.Valid()
  {
    && detail.usedGb.Some? && detail.limitGb.Some? && detail.resetDay.Some? && detail.lastPanelSync.Some?
    && var sampledAt := detail.lastPanelSync.value;
    && var window := CycleWindow(detail.resetDay.value, detail.lastReset, sampledAt);
    && window.Some?
    && IsWritable(TruncateToHour(sampledAt.Instant())) && IsWritable(sampledAt.Instant())
    && IsWritable(window.value.0.Instant()) && IsWritable(window.value.1.Instant())
  }

  /** There is a sample exactly if the snapshot is fresh, nothing is missing and every time can be
      written; it carries the measured values, the hour and the cycle of the measurement. */
  lemma SamplesAreExact(detail: MachineDetail, freshSnapshot: bool)
    requires detail.lastReset.Some? ==> detail.lastReset.value.Valid()
    ensures var sample := BuildSample(detail, freshSnapshot);
            && (sample.Some? <==> freshSnapshot && CanBuild(detail))
            && (sample.Some? ==>
                  && detail.usedGb == Some(sample.value.usedGb) && detail.limitGb == Some(sample.value.limitGb)
                  && detail.resetDay == Some(sample.value.resetDay)
                  && sample.value.serviceId == detail.serviceId && sample.value.lastReset == detail.lastReset
                  && var sampledAt := detail.lastPanelSync.value;
                  && sample.value.sampledAt == sampledAt.Instant()
                  && sample.value.bucket == TruncateToHour(sampledAt.Instant())
                  && var window := CycleWindow(detail.resetDay.value, detail.lastReset, sampledAt).value;
                  && sample.value.cycleStart == window.0.Instant() && sample.value.cycleEnd == window.1.Instant())
  {
    hide CycleWindow, TruncateToHour, AtOffset;
  }

  datatype SampleKey = SampleKey(userId: string, serviceId: int, cycleStart: int, bucket: int)

  datatype StoredSample = StoredSample(sample: Sample, createdAt: int, updatedAt: int)

  datatype Write = Write(userId: string, sample: Sample, now: int)

  type Rows = map<SampleKey, StoredSample>

  function KeyOf(w: Write): SampleKey {
    SampleKey(w.userId, w.sample.serviceId, w.sample.cycleStart, w.sample.bucket)
  }

  /** Insert, or on a key conflict overwrite everything but the creation time. */
  function Upserted(rows: Rows, w: Write): Rows {
    var key := KeyOf(w);
    rows[key := StoredSample(w.sample, if key in rows then rows[key].createdAt else w.now, w.now)]
  }

  class SampleTable {
    var rows: Rows

    constructor ()
      ensures rows == map[]
    {
      rows := map[];
    }

    method Upsert(userId: string, sample: Sample, now: int)
      modifies this
      ensures rows == Upserted(old(rows), Write(userId, sample, now))
    {
      var key := SampleKey(userId, sample.serviceId, sample.cycleStart, sample.bucket);
      if key in rows {
        var stored := rows[key];
        rows := rows[key := stored.(sample := sample, updatedAt := now)];
      } else {
        rows := rows[key := StoredSample(sample, now, now)];
      }
    }
  }

  /** The table after a history of writes. */
  function Replay(history: seq<Write>): Rows {
    if history == [] then map[] else Upserted(Replay(history[..|history| - 1]), history[|history| - 1])
  }

  ghost predicate IsLastWrite(history: seq<Write>, key: SampleKey, i: int) {
    0 <= i < |history| && KeyOf(history[i]) == key && forall j :: i < j < |history| ==> KeyOf(history[j]) != key
  }

  ghost predicate IsFirstWrite(history: seq<Write>, key: SampleKey, i: int) {
    0 <= i < |history| && KeyOf(history[i]) == key && forall j :: 0 <= j < i ==> KeyOf(history[j]) != key
  }

  ghost predicate Wrote(history: seq<Write>, key: SampleKey) {
    exists i :: 0 <= i < |history| && KeyOf(history[i]) == key
  }

  lemma WroteStep(history: seq<Write>, key: SampleKey)
    requires history != []
    ensures Wrote(history, key)
            <==> Wrote(history[..|history| - 1], key) || KeyOf(history[|history| - 1]) == key
  {
    var n := |history| - 1;
    if Wrote(history[..n], key) {
      var i :| 0 <= i < n && KeyOf(history[..n][i]) == key;
      assert KeyOf(history[i]) == key;
    }
    if Wrote(history, key) && KeyOf(history[n]) != key {
      var i :| 0 <= i < |history| && KeyOf(history[i]) == key;
      assert KeyOf(history[..n][i]) == key;
    }
  }

  /** A row exists exactly for the written keys. */
  lemma {:induction false} RowsAreTheWrittenKeys(history: seq<Write>, key: SampleKey)
    ensures key in Replay(history) <==> Wrote(history, key)
  {
    if history != [] {
      RowsAreTheWrittenKeys(history[..|history| - 1], key);
      WroteStep(history, key);
    }
  }

  /** A row holds the last write of its key. */
  lemma {:induction false} LastWriteWins(history: seq<Write>, key: SampleKey, i: int)
    requires IsLastWrite(history, key, i)
    ensures key in Replay(history)
    ensures Replay(history)[key].sample == history[i].sample && Replay(history)[key].updatedAt == history[i].now
  {
    var n := |history| - 1;
    if i < n {
      LastWriteWins(history[..n], key, i);
      assert KeyOf(history[n]) != key;
    }
  }

  /** And the creation time of the first. */
  lemma {:induction false} FirstWriteDatesTheRow(history: seq<Write>, key: SampleKey, i: int)
    requires IsFirstWrite(history, key, i)
    ensures key in Replay(history) && Replay(history)[key].createdAt == history[i].now
  {
    var n := |history| - 1;
    if i < n {
      FirstWriteDatesTheRow(history[..n], key, i);
    } else {
      RowsAreTheWrittenKeys(history[..n], key);
    }
  }

  /** The keys one cycle of one service occupies. */
  function CycleKeys(rows: Rows, userId: string, serviceId: int, cycleStart: int): set<SampleKey> {
    set key | key in rows && key.userId == userId && key.serviceId == serviceId && key.cycleStart == cycleStart
  }

  lemma {:induction false} HoursBound(keys: set<SampleKey>, userId: string, serviceId: int, cycleStart: int, hour: int,
      n: nat)
    requires forall key :: key in keys ==>
               && key.userId == userId && key.serviceId == serviceId && key.cycleStart == cycleStart
               && key.bucket % NANOS_PER_HOUR == 0
               && hour * NANOS_PER_HOUR <= key.bucket < (hour + n) * NANOS_PER_HOUR
    ensures |keys| <= n
  {
    if n == 0 {
      assert keys == {};
    } else {
      var last := SampleKey(userId, serviceId, cycleStart, (hour + n - 1) * NANOS_PER_HOUR);
      forall key | key in keys - {last}
        ensures key.bucket < (hour + n - 1) * NANOS_PER_HOUR
      {
        assert key.bucket == key.bucket / NANOS_PER_HOUR * NANOS_PER_HOUR;
      }
      HoursBound(keys - {last}, userId, serviceId, cycleStart, hour, n - 1);
      assert keys <= (keys - {last}) + {last};
    }
  }

  predicate InCycle(w: Write, userId: string, serviceId: int, cycleStart: int) {
    w.userId == userId && w.sample.serviceId == serviceId && w.sample.cycleStart == cycleStart
  }

  /** A cycle of at most `days` days holds at most `24 * days` rows, and one more if it does not
      start on the hour. */
  lemma CycleRowsBound(history: seq<Write>, userId: string, serviceId: int, cycleStart: int, days: nat)
    requires forall w :: w in history && InCycle(w, userId, serviceId, cycleStart) ==>
               WellPlaced(w.sample) && w.sample.cycleEnd <= cycleStart + days * NANOS_PER_DAY
    ensures |CycleKeys(Replay(history), userId, serviceId, cycleStart)|
            <= 24 * days + (if cycleStart % NANOS_PER_HOUR == 0 then 0 else 1)
  {
    var keys := CycleKeys(Replay(history), userId, serviceId, cycleStart);
    var hour := cycleStart / NANOS_PER_HOUR;
    var n := 24 * days + (if cycleStart % NANOS_PER_HOUR == 0 then 0 else 1);
    forall key | key in keys
      ensures key.bucket % NANOS_PER_HOUR == 0
      ensures hour * NANOS_PER_HOUR <= key.bucket < (hour + n) * NANOS_PER_HOUR
    {
      RowsAreTheWrittenKeys(history, key);
      var i :| 0 <= i < |history| && KeyOf(history[i]) == key;
      assert history[i] in history && InCycle(history[i], userId, serviceId, cycleStart);
      HourOfBucket(key.bucket, history[i].sample.sampledAt, cycleStart, days);
    }
    HoursBound(keys, userId, serviceId, cycleStart, hour, n);
  }

  predicate ResetsIn(w: Write, userId: string, serviceId: int, cycleStart: int) {
    InCycle(w, userId, serviceId, cycleStart) && StartsAtReset(w.sample)
  }

  predicate Builds(detail: MachineDetail, sample: Sample) {
    && (detail.lastReset.Some? ==> Representable(detail.lastReset.value))
    && (detail.lastPanelSync.Some? ==> detail.lastPanelSync.value.Valid())
    && BuildSample(detail, true) == Some(sample)
  }

  ghost predicate IsBuilt(sample: Sample) {
    exists detail :: Builds(detail, sample)
  }

  lemma BuiltIsWellPlaced(sample: Sample)
    ensures IsBuilt(sample) ==>
              WellPlaced(sample) && sample.cycleEnd <= sample.cycleStart + LongestCycle(sample) * NANOS_PER_DAY
  {
    if detail :| Builds(detail, sample) {
      SamplesAreWellPlaced(detail, true);
    }
  }

  /** However often samples are taken, a cycle of one service holds at most 745 rows, or 1465 if
      some sample of it starts at its reset date. */
  lemma BuiltCycleRowsBound(history: seq<Write>, userId: string, serviceId: int, cycleStart: int)
    requires forall w :: w in history ==> IsBuilt(w.sample)
    ensures var atReset := exists w :: w in history && ResetsIn(w, userId, serviceId, cycleStart);
            |CycleKeys(Replay(history), userId, serviceId, cycleStart)| <= if atReset then 1465 else 745
  {
    hide MonthStart, YearOfMonth, LengthOfMonth, Replay;
    var atReset := exists w :: w in history && ResetsIn(w, userId, serviceId, cycleStart);
    var days := if atReset then 61 else 31;
    forall w | w in history && InCycle(w, userId, serviceId, cycleStart)
      ensures WellPlaced(w.sample) && w.sample.cycleEnd <= cycleStart + days * NANOS_PER_DAY
    {
      BuiltIsWellPlaced(w.sample);
    }
    CycleRowsBound(history, userId, serviceId, cycleStart, days);
  }

  lemma HourOfBucket(bucket: int, sampledAt: int, cycleStart: int, days: nat)
    requires bucket % NANOS_PER_HOUR == 0 && bucket <= sampledAt < bucket + NANOS_PER_HOUR
    requires cycleStart <= sampledAt < cycleStart + days * NANOS_PER_DAY
    ensures var hour := cycleStart / NANOS_PER_HOUR;
            hour * NANOS_PER_HOUR <= bucket
            < (hour + 24 * days + (if cycleStart % NANOS_PER_HOUR == 0 then 0 else 1)) * NANOS_PER_HOUR
  {
    var b := bucket / NANOS_PER_HOUR;
    assert bucket == b * NANOS_PER_HOUR;
  }
}
