/** The catalog lifecycle tables and the transactions on them. */
module CatalogStore {
  import opened Wrappers
  import opened Sources

  const NANOS_PER_MINUTE := 60_000_000_000
  const NEVER_LISTED := 0   // 1970-01-01T00:00:00Z, the column's default

  datatype LifecycleState = Active | Delisted

  datatype ConfigRow = ConfigRow(
    name: string,
    digest: string,
    quantity: int,
    checkedAt: int,
    state: LifecycleState,
    listedAt: int,
    delistedAt: Option<int>,
    lastSeenAt: int,
    listedEventAt: Option<int>,
    sourcePid: Option<string>,
    source: Source)

  datatype FetchedConfig = FetchedConfig(
    id: string, name: string, digest: string, quantity: int, sourcePid: Option<string>, source: Source)

  datatype CacheRow = CacheRow(url: string, ids: seq<string>, lastSuccessAt: int)

  type Configs = map<string, ConfigRow>

  datatype Db = Db(
    configs: Configs,
    cache: map<string, CacheRow>,
    archives: map<(string, string), int>,     // (user, config) to the time it was cleaned up
    samples: map<(string, int), int>)         // (config, minute) to the quantity

  datatype ApplyResult = ApplyResult(
    listed: set<string>,
    listedEvents: seq<string>,
    pendingZeroStock: seq<string>,
    delisted: set<string>,
    fetchedAt: int)

  datatype ApplyError = RefusedEmptyPage(wouldDelist: nat)

  predicate IsActive(configs: Configs, id: string) {
    id in configs && configs[id].state == Active
  }

  /** The fallback scan of the config table. */
  function ActiveFrom(configs: Configs, source: Source): set<string> {
    set id | id in configs && configs[id].state == Active && configs[id].source == source
  }

  function Elements(ids: seq<string>): set<string> {
    set id | id in ids
  }

  function PageIds(page: seq<FetchedConfig>): set<string> {
    set i | 0 <= i < |page| :: page[i].id
  }

  function IdsOf(page: seq<FetchedConfig>): (ids: seq<string>)
    ensures |ids| == |page| && forall i :: 0 <= i < |page| ==> ids[i] == page[i].id
  {
    seq(|page|, i requires 0 <= i < |page| => page[i].id)
  }

  function PreviousIds(db: Db, source: Source): set<string> {
    if UrlKey(source) in db.cache then Elements(db.cache[UrlKey(source)].ids) else ActiveFrom(db.configs, source)
  }

  /** The insert-or-update of one fetched config. */
  function UpsertedRow(configs: Configs, c: FetchedConfig, now: int): ConfigRow {
    var event := if c.quantity > 0 then Some(now) else None;
    if c.id !in configs then
      ConfigRow(c.name, c.digest, c.quantity, now, Active, now, None, now, event, c.sourcePid, c.source)
    else
      var row := configs[c.id];
      ConfigRow(
        c.name, c.digest, c.quantity, now, Active,
        if row.state == Delisted then now else if row.listedAt == NEVER_LISTED then now else row.listedAt,
        None,
        now,
        if row.state == Delisted then event
        else if row.listedEventAt.None? && c.quantity > 0 then event
        else row.listedEventAt,
        if c.sourcePid.Some? then c.sourcePid else row.sourcePid,
        c.source)
  }

  function UpsertedAll(configs: Configs, page: seq<FetchedConfig>, now: int): Configs {
    if page == [] then configs
    else
      var n := |page| - 1;
      var before := UpsertedAll(configs, page[..n], now);
      before[page[n].id := UpsertedRow(before, page[n], now)]
  }

  function SampledAll(samples: map<(string, int), int>, page: seq<FetchedConfig>, now: int): map<(string, int), int> {
    if page == [] then samples
    else
      var n := |page| - 1;
      SampledAll(samples, page[..n], now)
        [(page[n].id, FloorToMinute(now)) := if page[n].quantity > 0 then page[n].quantity else 0]
  }

  function FloorToMinute(now: int): (minute: int)
    ensures minute <= now < minute + NANOS_PER_MINUTE && minute % NANOS_PER_MINUTE == 0
  {
    now / NANOS_PER_MINUTE * NANOS_PER_MINUTE
  }

  /** The listing decision taken beside the database, from the rows as they were before. */
  predicate EmitsListed(configs: Configs, listed: set<string>, c: FetchedConfig) {
    c.quantity > 0 && (c.id in listed || (IsActive(configs, c.id) && configs[c.id].listedEventAt.None?))
  }

  function ListedEvents(configs: Configs, listed: set<string>, page: seq<FetchedConfig>): seq<string> {
    if page == [] then []
    else
      var n := |page| - 1;
      ListedEvents(configs, listed, page[..n]) + (if EmitsListed(configs, listed, page[n]) then [page[n].id] else [])
  }

  function PendingZeroStock(listed: set<string>, page: seq<FetchedConfig>): seq<string> {
    if page == [] then []
    else
      var n := |page| - 1;
      PendingZeroStock(listed, page[..n]) + (if page[n].id in listed && page[n].quantity == 0 then [page[n].id] else [])
  }

  function DelistedRow(row: ConfigRow, now: int, clearEvent: bool): ConfigRow {
    row.(state := Delisted, delistedAt := Some(now), listedEventAt := if clearEvent then None else row.listedEventAt)
  }

  function DelistedAll(configs: Configs, ids: set<string>, now: int): Configs {
    map id | id in configs ::
      if id in ids && configs[id].state != Delisted then DelistedRow(configs[id], now, true) else configs[id]
  }

  function ResultOf(db: Db, source: Source, page: seq<FetchedConfig>, now: int): ApplyResult {
    var previous := PreviousIds(db, source);
    var listed := PageIds(page) - previous;
    ApplyResult(listed, ListedEvents(db.configs, listed, page), PendingZeroStock(listed, page),
                previous - PageIds(page), now)
  }

  predicate Refused(db: Db, source: Source, page: seq<FetchedConfig>, authoritative: bool) {
    page == [] && PreviousIds(db, source) != {} && !authoritative
  }

  /** The tables after applying a fetched page that was not refused. */
  function Applied(db: Db, source: Source, url: string, page: seq<FetchedConfig>, now: int): Db {
    Db(DelistedAll(UpsertedAll(db.configs, page, now), PreviousIds(db, source) - PageIds(page), now),
       db.cache[UrlKey(source) := CacheRow(url, IdsOf(page), now)],
       map key | key in db.archives && key.1 !in PageIds(page) :: db.archives[key],
       SampledAll(db.samples, page, now))
  }

  // Retiring targets and archiving.

  function TargetSet(targets: seq<Source>): set<Source> {
    set target | target in targets
  }

  lemma OneMoreTarget(targets: seq<Source>, i: nat)
    requires i < |targets|
    ensures TargetSet(targets[..i + 1]) == TargetSet(targets[..i]) + {targets[i]}
  {
    assert targets[..i + 1] == targets[..i] + [targets[i]];
  }

  predicate IsRetired(row: ConfigRow, targets: set<Source>) {
    row.state != Delisted && row.source in targets
  }

  function RetiredIds(configs: Configs, targets: set<Source>): set<string> {
    set id | id in configs && IsRetired(configs[id], targets)
  }

  function RetiredConfigs(configs: Configs, targets: set<Source>, now: int): Configs {
    map id | id in configs ::
      if IsRetired(configs[id], targets) then DelistedRow(configs[id], now, false) else configs[id]
  }

  /** Retiring delists the rows of all targets at once and forgets their cached lists. */
  function Retired(db: Db, targets: set<Source>, now: int): Db {
    db.(configs := RetiredConfigs(db.configs, targets, now),
        cache := db.cache - set target | target in targets :: UrlKey(target))
  }

  lemma NothingRetired(db: Db, now: int)
    ensures Retired(db, {}, now) == db && RetiredIds(db.configs, {}) == {}
  {
    assert RetiredConfigs(db.configs, {}, now) == db.configs;
  }

  lemma RetireOneMore(db: Db, targets: set<Source>, source: Source, now: int)
    ensures var rest := Retired(db, targets, now);
            && RetiredConfigs(rest.configs, {source}, now) == RetiredConfigs(db.configs, targets + {source}, now)
            && rest.cache - {UrlKey(source)} == Retired(db, targets + {source}, now).cache
            && RetiredIds(db.configs, targets) + RetiredIds(rest.configs, {source})
               == RetiredIds(db.configs, targets + {source})
  {
  }

  function ArchivedIds(db: Db, user: string): set<string> {
    set id | id in db.configs && db.configs[id].state == Delisted && (user, id) !in db.archives
  }

  function Archived(db: Db, user: string, now: int): Db {
    db.(archives := db.archives + map id | id in ArchivedIds(db, user) :: (user, id) := now)
  }

  class Store {
    var configs: Configs
    var cache: map<string, CacheRow>
    var archives: map<(string, string), int>
    var samples: map<(string, int), int>

    constructor ()
      ensures Tables() == Db(map[], map[], map[], map[])
    {
      configs, cache, archives, samples := map[], map[], map[], map[];
    }

    function Tables(): Db
      reads this
    {
      Db(configs, cache, archives, samples)
    }

    /** Applies one successfully fetched page as one transaction. */
    method ApplyCatalogUrlFetchSuccess(source: Source, url: string, page: seq<FetchedConfig>, authoritative: bool,
        now: int)
      returns (result: Result<ApplyResult, ApplyError>)
      modifies this
      ensures result.Failure? <==> Refused(old(Tables()), source, page, authoritative)
      ensures result.Failure? ==>
                && Tables() == old(Tables())
                && result.error == RefusedEmptyPage(|PreviousIds(old(Tables()), source)|)
      ensures result.Success? ==>
                && Tables() == Applied(old(Tables()), source, url, page, now)
                && result.value == ResultOf(old(Tables()), source, page, now)
    {
      var key := UrlKey(source);
      var previous := if key in cache then Elements(cache[key].ids) else ActiveFrom(configs, source);
      if page == [] && previous != {} && !authoritative {
        return Failure(RefusedEmptyPage(|previous|));
      }
      var fetched := PageIds(page);
      var listed := fetched - previous;
      var delisted := previous - fetched;
      var listedEvents, pendingZeroStock := DecideListed(listed, page);
      UpsertPage(page, now);
      archives := map entry | entry in archives && entry.1 !in fetched :: archives[entry];
      configs := DelistedAll(configs, delisted, now);
      cache := cache[key := CacheRow(url, IdsOf(page), now)];
      return Success(ApplyResult(listed, listedEvents, pendingZeroStock, delisted, now));
    }

    method DecideListed(listed: set<string>, page: seq<FetchedConfig>)
      returns (listedEvents: seq<string>, pendingZeroStock: seq<string>)
      ensures listedEvents == ListedEvents(configs, listed, page)
      ensures pendingZeroStock == PendingZeroStock(listed, page)
    {
      listedEvents, pendingZeroStock := [], [];
      for i := 0 to |page|
        invariant listedEvents == ListedEvents(configs, listed, page[..i])
        invariant pendingZeroStock == PendingZeroStock(listed, page[..i])
      {
        var c := page[i];
        assert page[..i + 1][..i] == page[..i];
        var isNewLifecycle := c.id in listed;
        if c.quantity > 0
           && (isNewLifecycle
               || (c.id in configs && configs[c.id].state == Active && configs[c.id].listedEventAt.None?)) {
          listedEvents := listedEvents + [c.id];
        }
        if isNewLifecycle && c.quantity == 0 {
          pendingZeroStock := pendingZeroStock + [c.id];
        }
      }
      assert page[..|page|] == page;
    }

    method UpsertPage(page: seq<FetchedConfig>, now: int)
      modifies this`configs, this`samples
      ensures configs == UpsertedAll(old(configs), page, now)
      ensures samples == SampledAll(old(samples), page, now)
    {
      for i := 0 to |page|
        invariant configs == UpsertedAll(old(configs), page[..i], now)
        invariant samples == SampledAll(old(samples), page[..i], now)
      {
        var c := page[i];
        assert page[..i + 1][..i] == page[..i];
        configs := configs[c.id := UpsertedRow(configs, c, now)];
        samples := samples[(c.id, FloorToMinute(now)) := if c.quantity > 0 then c.quantity else 0];
      }
      assert page[..|page|] == page;
    }

    /** Delists every config of the given targets and forgets their cached lists, target by
        target. */
    method RetireCatalogTargets(targets: seq<Source>, now: int) returns (retired: set<string>)
      modifies this
      ensures Tables() == Retired(old(Tables()), TargetSet(targets), now)
      ensures retired == RetiredIds(old(configs), TargetSet(targets))
    {
      retired := {};
      NothingRetired(Tables(), now);
      for i := 0 to |targets|
        invariant Tables() == Retired(old(Tables()), TargetSet(targets[..i]), now)
        invariant retired == RetiredIds(old(configs), TargetSet(targets[..i]))
      {
        RetireOneMore(old(Tables()), TargetSet(targets[..i]), targets[i], now);
        OneMoreTarget(targets, i);
        var rows := RetireTarget(targets[i], now);
        retired := retired + rows;
      }
      assert targets[..|targets|] == targets;
    }

    method RetireTarget(source: Source, now: int) returns (rows: set<string>)
      modifies this
      ensures rows == RetiredIds(old(configs), {source})
      ensures configs == RetiredConfigs(old(configs), {source}, now) && cache == old(cache) - {UrlKey(source)}
      ensures archives == old(archives) && samples == old(samples)
    {
      rows := set id | id in configs && configs[id].source == source && configs[id].state != Delisted;
      configs := map id | id in configs :: if id in rows then DelistedRow(configs[id], now, false) else configs[id];
      cache := cache - {UrlKey(source)};
    }

    /** Archives, for one user, every delisted config that user has not archived yet. */
    method ArchiveAllDelistedConfigs(user: string, now: int) returns (archived: set<string>)
      modifies this
      ensures Tables() == Archived(old(Tables()), user, now)
      ensures archived == ArchivedIds(old(Tables()), user)
    {
      archived := set id | id in configs && configs[id].state == Delisted && (user, id) !in archives;
      archives := archives + map id | id in archived :: (user, id) := now;
    }
  }
}
