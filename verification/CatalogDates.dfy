/** The dates that a config's row carries over its history, and the minute samples of its stock. */
module CatalogDates {
  import opened Wrappers
  import opened Sources
  import opened CatalogStore
  import opened CatalogLifecycle
  import opened CatalogRuns

  // One page.

  lemma {:induction false} UpsertedDates(configs: Configs, page: seq<FetchedConfig>, now: int, id: string)
    ensures var after := UpsertedAll(configs, page, now);
            && (id !in PageIds(page) ==>
                  (id in after <==> id in configs) && (id in configs ==> after[id] == configs[id]))
            && (id in PageIds(page) ==>
                  && id in after && after[id].state == Active && after[id].lastSeenAt == now
                     && after[id].checkedAt == now
                  && after[id].listedAt == (if IsActive(configs, id) && configs[id].listedAt != NEVER_LISTED
                                            then configs[id].listedAt else now))
  {
    if page != [] {
      var n := |page| - 1;
      UpsertedDates(configs, page[..n], now, id);
      PageStep(page, id);
    }
  }

  /** The row of a fetched config shows what its last row on the page shows. */
  lemma {:induction false} LastRowWins(configs: Configs, page: seq<FetchedConfig>, now: int, i: nat)
    requires i < |page| && forall j :: i < j < |page| ==> page[j].id != page[i].id
    ensures var after := UpsertedAll(configs, page, now);
            && page[i].id in after
            && after[page[i].id].name == page[i].name && after[page[i].id].digest == page[i].digest
            && after[page[i].id].quantity == page[i].quantity && after[page[i].id].source == page[i].source
            && (page[i].sourcePid.Some? ==> after[page[i].id].sourcePid == page[i].sourcePid)
  {
    if i < |page| - 1 {
      LastRowWins(configs, page[..|page| - 1], now, i);
    }
  }

  /** The product id of a config is the last one that the page shows. */
  lemma {:induction false} LastPidWins(configs: Configs, page: seq<FetchedConfig>, now: int, i: nat)
    requires i < |page| && page[i].sourcePid.Some?
    requires forall j :: i < j < |page| && page[j].id == page[i].id ==> page[j].sourcePid.None?
    ensures var after := UpsertedAll(configs, page, now);
            page[i].id in after && after[page[i].id].sourcePid == page[i].sourcePid
  {
    if i < |page| - 1 {
      LastPidWins(configs, page[..|page| - 1], now, i);
    }
  }

  /** And a page that shows none of it leaves it as it was. */
  lemma {:induction false} PidStays(configs: Configs, page: seq<FetchedConfig>, now: int, id: string)
    requires forall j :: 0 <= j < |page| && page[j].id == id ==> page[j].sourcePid.None?
    ensures var after := UpsertedAll(configs, page, now);
            && (id in configs ==> id in after)
            && (id in after ==> after[id].sourcePid == if id in configs then configs[id].sourcePid else None)
  {
    if page != [] {
      PidStays(configs, page[..|page| - 1], now, id);
    }
  }

  /** The sample of the minute shows the stock of the config's last row on the page. */
  lemma {:induction false} LastSampleWins(samples: map<(string, int), int>, page: seq<FetchedConfig>, now: int, i: nat)
    requires i < |page| && forall j :: i < j < |page| ==> page[j].id != page[i].id
    ensures var after := SampledAll(samples, page, now);
            && (page[i].id, FloorToMinute(now)) in after
            && after[(page[i].id, FloorToMinute(now))] == if page[i].quantity > 0 then page[i].quantity else 0
  {
    if i < |page| - 1 {
      LastSampleWins(samples, page[..|page| - 1], now, i);
    }
  }

  /** A sample is kept for the whole minute. */
  lemma MinutesAreWhole(now: int)
    ensures FloorToMinute(now) <= now < FloorToMinute(now) + 60 * 1_000_000_000
    ensures FloorToMinute(now) % (60 * 1_000_000_000) == 0
  {
  }

  /** Samples of other configs and of other minutes stay. */
  lemma {:induction false} OtherSamplesStay(
    samples: map<(string, int), int>, page: seq<FetchedConfig>, now: int, id: string, minute: int)
    requires id !in PageIds(page) || minute != FloorToMinute(now)
    ensures var after := SampledAll(samples, page, now);
            && ((id, minute) in after <==> (id, minute) in samples)
            && ((id, minute) in samples ==> after[(id, minute)] == samples[(id, minute)])
  {
    if page != [] {
      PageStep(page, id);
      OtherSamplesStay(samples, page[..|page| - 1], now, id, minute);
    }
  }

  // Whole histories.

  /** When the current lifecycle of an active config began. */
  function StartedAt(ops: seq<Op>, id: string): int {
    if ops == [] then NEVER_LISTED
    else
      var before := ops[..|ops| - 1];
      if ActiveAfter(before, id) then StartedAt(before, id) else ops[|ops| - 1].now
  }

  /** When a fetch of the current lifecycle first found the config in stock. */
  function StockedAt(ops: seq<Op>, id: string): int {
    if ops == [] then NEVER_LISTED
    else
      var before := ops[..|ops| - 1];
      if ActiveAfter(before, id) && StockSeen(before, id) then StockedAt(before, id) else ops[|ops| - 1].now
  }

  /** When the last lifecycle of a delisted config ended. */
  function EndedAt(ops: seq<Op>, id: string): int {
    if ops == [] then NEVER_LISTED
    else
      var before := ops[..|ops| - 1];
      if ActiveAfter(before, id) then ops[|ops| - 1].now else EndedAt(before, id)
  }

  /** No operation runs at the date that stands for "never listed". */
  predicate Dated(ops: seq<Op>) {
    forall i :: 0 <= i < |ops| ==> ops[i].now != NEVER_LISTED
  }

  /** How one step moves the dates of a config. */
  lemma StepDates(db: Db, op: Op, id: string)
    requires Consistent(db) && Genuine(op)
    requires IsActive(db.configs, id) ==> db.configs[id].listedAt != NEVER_LISTED
    ensures var before, after := db.configs, Step(db, op).configs;
            && (IsActive(after, id) ==>
                  after[id].listedAt == if IsActive(before, id) then before[id].listedAt else op.now)
            && (id in after && after[id].state == Delisted ==>
                  && id in before
                  && after[id].delistedAt == if IsActive(before, id) then Some(op.now) else before[id].delistedAt)
  {
    match op
    case Apply(source, url, page, authoritative, now) =>
      if !Refused(db, source, page, authoritative) {
        AppliedRows(db, source, url, page, now, id);
        UpsertedDates(db.configs, page, now, id);
      }
    case Retire(_, _) =>
    case Archive(_, _) =>
  }

  /** In every history an active config is dated with the step that began its lifecycle, and a
      delisted one with the step that ended it. */
  lemma {:induction false} RowsDateTheirLifecycle(ops: seq<Op>, id: string)
    requires AllGenuine(ops) && Dated(ops)
    ensures var configs := After(ops).configs;
            && (IsActive(configs, id) ==> configs[id].listedAt == StartedAt(ops, id) != NEVER_LISTED)
            && (id in configs && configs[id].state == Delisted ==> configs[id].delistedAt == Some(EndedAt(ops, id)))
  {
    if ops != [] {
      var before, op := ops[..|ops| - 1], ops[|ops| - 1];
      RowsDateTheirLifecycle(before, id);
      HistoriesAreConsistent(before);
      StepDates(After(before), op, id);
    }
  }

  lemma StepEvent(db: Db, op: Op, id: string)
    requires Consistent(db) && Genuine(op)
    ensures var after := Step(db, op).configs;
            IsActive(after, id) ==>
              OpenEvent(after, id) == if OpenEvent(db.configs, id).Some? then OpenEvent(db.configs, id)
                                      else if id in Told(db, op) then Some(op.now) else None
  {
    OpenEventStep(db, op, id);
    match op
    case Apply(source, url, page, authoritative, now) =>
      if !Refused(db, source, page, authoritative) {
        DecisionMatchesRow(db, source, url, page, now, id);
        AppliedRows(db, source, url, page, now, id);
        UpsertedRows(db.configs, page, source, now, id);
      }
    case Retire(_, _) =>
    case Archive(_, _) =>
  }

  /** And its listing event with the first fetch of the lifecycle that found it in stock. */
  lemma {:induction false} EventsDateTheFirstStock(ops: seq<Op>, id: string)
    requires AllGenuine(ops) && ActiveAfter(ops, id)
    ensures OpenEvent(After(ops).configs, id) == if StockSeen(ops, id) then Some(StockedAt(ops, id)) else None
  {
    if ops != [] {
      var before, op := ops[..|ops| - 1], ops[|ops| - 1];
      HistoriesAreConsistent(before);
      StepEvent(After(before), op, id);
      ToldAtFirstStock(ops, id);
      ToldOncePerLifecycle(ops, id);
      if ActiveAfter(before, id) {
        EventsDateTheFirstStock(before, id);
      }
    }
  }
}
