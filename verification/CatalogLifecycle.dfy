/** What every order of apply, retire and archive keeps, and the listing events of a config
    over its lifecycles. */
module CatalogLifecycle {
  import opened Wrappers
  import opened Sources
  import opened CatalogStore

  /** What the page parser guarantees: every config of a page carries the page as its source and
      in its id, and a quantity read from digits. A page may repeat an id. */
  predicate ParsedFrom(page: seq<FetchedConfig>, source: Source) {
    && WellFormed(source)
    && forall i :: 0 <= i < |page| ==>
         page[i].source == source && IdPrefix(source) <= page[i].id && page[i].quantity >= 0
  }

  predicate InStock(page: seq<FetchedConfig>, id: string) {
    exists i :: 0 <= i < |page| && page[i].id == id && page[i].quantity > 0
  }

  // One apply: what the row updates amount to.

  /** The time of the listing event that a config's current lifecycle still has. */
  function OpenEvent(configs: Configs, id: string): Option<int> {
    if IsActive(configs, id) then configs[id].listedEventAt else None
  }

  lemma PageStep(page: seq<FetchedConfig>, id: string)
    requires page != []
    ensures var n := |page| - 1;
            && (id in PageIds(page) <==> id in PageIds(page[..n]) || page[n].id == id)
            && (InStock(page, id) <==> InStock(page[..n], id) || (page[n].id == id && page[n].quantity > 0))
  {
    var n := |page| - 1;
    assert forall i :: 0 <= i < n ==> page[..n][i] == page[i];
    if id in PageIds(page[..n]) {
      var i :| 0 <= i < n && page[..n][i].id == id;
      assert page[i].id == id;
    }
    if InStock(page[..n], id) {
      var i :| 0 <= i < n && page[..n][i].id == id && page[..n][i].quantity > 0;
      assert page[i].id == id && page[i].quantity > 0;
    }
  }

  /** The row-by-row updates keep an event that the lifecycle already had, and otherwise date one
      exactly if the page shows the config in stock, whether it is new, relisted or still active. */
  lemma {:induction false} UpsertedRows(configs: Configs, page: seq<FetchedConfig>, source: Source, now: int,
      id: string)
    requires ParsedFrom(page, source)
    ensures var after := UpsertedAll(configs, page, now);
            && (id !in PageIds(page) ==>
                  (id in after <==> id in configs) && (id in configs ==> after[id] == configs[id]))
            && (id in PageIds(page) ==>
                  && id in after && after[id].state == Active && after[id].delistedAt.None?
                  && after[id].source == source && after[id].quantity >= 0
                  && after[id].listedEventAt == (if OpenEvent(configs, id).Some? then OpenEvent(configs, id)
                                                 else if InStock(page, id) then Some(now) else None)
                  && (!InStock(page, id) ==> after[id].quantity == 0))
  {
    if page != [] {
      var n := |page| - 1;
      UpsertedRows(configs, page[..n], source, now, id);
      PageStep(page, id);
    }
  }

  lemma {:induction false} ListedEventMembers(configs: Configs, listed: set<string>, page: seq<FetchedConfig>,
      id: string)
    ensures id in ListedEvents(configs, listed, page)
            <==> InStock(page, id) && (id in listed || (IsActive(configs, id) && configs[id].listedEventAt.None?))
    ensures id in PendingZeroStock(listed, page)
            <==> id in listed && exists i :: 0 <= i < |page| && page[i].id == id && page[i].quantity == 0
  {
    if page != [] {
      var n := |page| - 1;
      ListedEventMembers(configs, listed, page[..n], id);
      PageStep(page, id);
      assert forall i :: 0 <= i < n ==> page[..n][i] == page[i];
      if id in PendingZeroStock(listed, page[..n]) {
        var i :| 0 <= i < n && page[..n][i].id == id && page[..n][i].quantity == 0;
        assert page[i].id == id;
      }
    }
  }

  function StockedRows(page: seq<FetchedConfig>, id: string): nat {
    if page == [] then 0
    else StockedRows(page[..|page| - 1], id)
         + (if page[|page| - 1].id == id && page[|page| - 1].quantity > 0 then 1 else 0)
  }

  /** A config is told of once per in-stock row it has on the page, so once if ids are distinct. */
  lemma {:induction false} EventMultiplicity(configs: Configs, listed: set<string>, page: seq<FetchedConfig>,
      id: string)
    ensures multiset(ListedEvents(configs, listed, page))[id]
            == if id in listed || (IsActive(configs, id) && configs[id].listedEventAt.None?) then StockedRows(page, id)
               else 0
  {
    if page != [] {
      EventMultiplicity(configs, listed, page[..|page| - 1], id);
    }
  }

  lemma {:induction false} DistinctIdsStockOnce(page: seq<FetchedConfig>, id: string)
    requires forall i, j :: 0 <= i < j < |page| ==> page[i].id != page[j].id
    ensures StockedRows(page, id) == if InStock(page, id) then 1 else 0
  {
    if page != [] {
      var n := |page| - 1;
      DistinctIdsStockOnce(page[..n], id);
      PageStep(page, id);
    }
  }

  // The lifecycle invariant.

  ghost predicate RowsConsistent(configs: Configs) {
    forall id :: id in configs ==>
      && WellFormed(configs[id].source) && IdPrefix(configs[id].source) <= id
      && configs[id].quantity >= 0
      && (configs[id].state == Delisted <==> configs[id].delistedAt.Some?)
      && (configs[id].state == Active && configs[id].listedEventAt.None? ==> configs[id].quantity == 0)
  }

  /** Every cached id list is what a scan of the table would return. */
  ghost predicate CacheAgrees(db: Db) {
    forall source :: WellFormed(source) && UrlKey(source) in db.cache ==>
      Elements(db.cache[UrlKey(source)].ids) == ActiveFrom(db.configs, source)
  }

  ghost predicate ArchivesDelisted(db: Db) {
    forall user, id :: (user, id) in db.archives ==> id in db.configs && db.configs[id].state == Delisted
  }

  ghost predicate Consistent(db: Db) {
    RowsConsistent(db.configs) && CacheAgrees(db) && ArchivesDelisted(db)
  }

  /** The fast branch and the fallback scan agree. */
  lemma PreviousIdsAreTheActiveOnes(db: Db, source: Source)
    requires Consistent(db) && WellFormed(source)
    ensures PreviousIds(db, source) == ActiveFrom(db.configs, source)
  {
  }

  /** Applying a page, row by row: fetched configs are active from this source, configs missing
      from the page are delisted, and all others are untouched. */
  lemma AppliedRows(db: Db, source: Source, url: string, page: seq<FetchedConfig>, now: int, id: string)
    requires Consistent(db) && ParsedFrom(page, source)
    ensures var after := Applied(db, source, url, page, now).configs;
            && (id in PageIds(page) ==>
                  && id in after && after[id] == UpsertedAll(db.configs, page, now)[id] && after[id].state == Active)
            && (id !in PageIds(page) ==>
                  && (id in after <==> id in db.configs)
                  && (id in db.configs ==>
                        after[id] == if id in ActiveFrom(db.configs, source)
                                     then DelistedRow(db.configs[id], now, true) else db.configs[id]))
  {
    UpsertedRows(db.configs, page, source, now, id);
    PreviousIdsAreTheActiveOnes(db, source);
  }

  /** A fetched id that already has a row came from the same source. */
  lemma FetchedIdsKeepTheirSource(db: Db, source: Source, page: seq<FetchedConfig>, id: string)
    requires Consistent(db) && ParsedFrom(page, source) && id in PageIds(page) && id in db.configs
    ensures db.configs[id].source == source
    ensures id in PreviousIds(db, source) <==> IsActive(db.configs, id)
  {
    var i :| 0 <= i < |page| && page[i].id == id;
    IdNamesItsSource(id, source, db.configs[id].source);
    PreviousIdsAreTheActiveOnes(db, source);
  }

  lemma AppliedRowsConsistent(db: Db, source: Source, url: string, page: seq<FetchedConfig>, now: int)
    requires Consistent(db) && ParsedFrom(page, source)
    ensures RowsConsistent(Applied(db, source, url, page, now).configs)
  {
    var after := Applied(db, source, url, page, now).configs;
    forall id | id in after
      ensures && WellFormed(after[id].source) && IdPrefix(after[id].source) <= id && after[id].quantity >= 0
              && (after[id].state == Delisted <==> after[id].delistedAt.Some?)
              && (after[id].state == Active && after[id].listedEventAt.None? ==> after[id].quantity == 0)
    {
      AppliedRows(db, source, url, page, now, id);
      UpsertedRows(db.configs, page, source, now, id);
      if id in PageIds(page) {
        var i :| 0 <= i < |page| && page[i].id == id;
      }
    }
  }

  lemma AppliedActive(db: Db, source: Source, url: string, page: seq<FetchedConfig>, now: int, other: Source)
    requires Consistent(db) && ParsedFrom(page, source) && WellFormed(other)
    ensures ActiveFrom(Applied(db, source, url, page, now).configs, other)
            == if other == source then PageIds(page) else ActiveFrom(db.configs, other)
  {
    var after := Applied(db, source, url, page, now).configs;
    forall id
      ensures id in ActiveFrom(after, other)
              <==> if other == source then id in PageIds(page) else id in ActiveFrom(db.configs, other)
    {
      AppliedRows(db, source, url, page, now, id);
      UpsertedRows(db.configs, page, source, now, id);
      if id in PageIds(page) && id in db.configs {
        FetchedIdsKeepTheirSource(db, source, page, id);
      }
    }
  }

  lemma ApplyConsistent(db: Db, source: Source, url: string, page: seq<FetchedConfig>, now: int)
    requires Consistent(db) && ParsedFrom(page, source)
    ensures Consistent(Applied(db, source, url, page, now))
  {
    var after := Applied(db, source, url, page, now);
    AppliedRowsConsistent(db, source, url, page, now);
    forall other | WellFormed(other) && UrlKey(other) in after.cache
      ensures Elements(after.cache[UrlKey(other)].ids) == ActiveFrom(after.configs, other)
    {
      AppliedActive(db, source, url, page, now, other);
      if UrlKey(other) == UrlKey(source) {
        UrlKeyIsInjective(other, source);
        IdsAreThePage(page);
      }
    }
    forall user, id | (user, id) in after.archives
      ensures id in after.configs && after.configs[id].state == Delisted
    {
      AppliedRows(db, source, url, page, now, id);
    }
  }

  lemma IdsAreThePage(page: seq<FetchedConfig>)
    ensures Elements(IdsOf(page)) == PageIds(page)
  {
    forall id
      ensures id in Elements(IdsOf(page)) <==> id in PageIds(page)
    {
      if id in PageIds(page) {
        var i :| 0 <= i < |page| && page[i].id == id;
        assert IdsOf(page)[i] == id;
      }
    }
  }

  lemma RetireConsistent(db: Db, targets: set<Source>, now: int)
    requires Consistent(db)
    ensures Consistent(Retired(db, targets, now))
  {
    var after := Retired(db, targets, now);
    forall source | WellFormed(source) && UrlKey(source) in after.cache
      ensures Elements(after.cache[UrlKey(source)].ids) == ActiveFrom(after.configs, source)
    {
      assert source !in targets;
      assert ActiveFrom(after.configs, source) == ActiveFrom(db.configs, source);
    }
  }

  lemma ArchiveConsistent(db: Db, user: string, now: int)
    requires Consistent(db)
    ensures Consistent(Archived(db, user, now))
  {
  }

  /** Newly listed ids are exactly those told of and those pending at zero stock, and with
      distinct ids no config is both. */
  lemma ListedSplits(db: Db, source: Source, page: seq<FetchedConfig>, now: int, id: string)
    requires Consistent(db) && ParsedFrom(page, source)
    ensures var result := ResultOf(db, source, page, now);
            && (id in result.listed ==> id in result.listedEvents || id in result.pendingZeroStock)
            && (id in result.pendingZeroStock ==> id in result.listed)
            && ((forall i, j :: 0 <= i < j < |page| ==> page[i].id != page[j].id)
                  ==> !(id in result.listedEvents && id in result.pendingZeroStock))
            && (id in result.listed <==> id in PageIds(page) && !IsActive(db.configs, id))
            && (id in result.delisted <==> id in ActiveFrom(db.configs, source) && id !in PageIds(page))
  {
    var listed := PageIds(page) - PreviousIds(db, source);
    ListedEventMembers(db.configs, listed, page, id);
    PreviousIdsAreTheActiveOnes(db, source);
    if id in PageIds(page) {
      var i :| 0 <= i < |page| && page[i].id == id;
      if id in db.configs {
        FetchedIdsKeepTheirSource(db, source, page, id);
      }
    }
  }

  /** The decision and the row update agree: a config is told of exactly if the page shows it in
      stock and its lifecycle had no event yet, and exactly then its row gets a new event date. */
  lemma DecisionMatchesRow(db: Db, source: Source, url: string, page: seq<FetchedConfig>, now: int, id: string)
    requires Consistent(db) && ParsedFrom(page, source)
    ensures var told := id in ResultOf(db, source, page, now).listedEvents;
            var after := Applied(db, source, url, page, now).configs;
            && (told <==> InStock(page, id) && OpenEvent(db.configs, id).None?)
            && (told <==> OpenEvent(db.configs, id).None? && OpenEvent(after, id).Some?)
            && (told ==> OpenEvent(after, id) == Some(now) && after[id].quantity >= 0)
  {
    var listed := PageIds(page) - PreviousIds(db, source);
    ListedEventMembers(db.configs, listed, page, id);
    AppliedRows(db, source, url, page, now, id);
    UpsertedRows(db.configs, page, source, now, id);
    if InStock(page, id) {
      var i :| 0 <= i < |page| && page[i].id == id && page[i].quantity > 0;
      assert id in PageIds(page);
    }
    if id in PageIds(page) && id in db.configs {
      FetchedIdsKeepTheirSource(db, source, page, id);
    }
  }

  /** Archiving leaves every delisted config archived for the user, dated now unless it was archived
      before, and changes nothing else. */
  lemma ArchivesExactly(db: Db, user: string, now: int, other: string, id: string)
    ensures var after := Archived(db, user, now);
            && after.configs == db.configs && after.cache == db.cache && after.samples == db.samples
            && ((other, id) in after.archives
                <==> || (other, id) in db.archives
                     || (other == user && id in db.configs && db.configs[id].state == Delisted))
            && ((other, id) in after.archives ==>
                  after.archives[(other, id)] == if (other, id) in db.archives then db.archives[(other, id)] else now)
  {
    var ids := ArchivedIds(db, user);
    var more := map key | key in ids :: (user, key) := now;
    assert (other, id) in more <==> other == user && id in ids;
  }

  /** A config that an apply misses is delisted now and loses its listing event; one whose target is
      retired is delisted now and keeps it. Nothing else of its row changes. */
  lemma DelistedRowsExactly(db: Db, source: Source, url: string, page: seq<FetchedConfig>, targets: set<Source>,
      now: int, id: string)
    requires Consistent(db) && ParsedFrom(page, source) && IsActive(db.configs, id)
    ensures var row := db.configs[id];
            && (row.source == source && id !in PageIds(page) ==>
                  id in Applied(db, source, url, page, now).configs
                  && Applied(db, source, url, page, now).configs[id]
                     == row.(state := Delisted, delistedAt := Some(now), listedEventAt := None))
            && id in Retired(db, targets, now).configs
            && Retired(db, targets, now).configs[id]
               == if row.source in targets then row.(state := Delisted, delistedAt := Some(now)) else row
  {
    AppliedRows(db, source, url, page, now, id);
  }

  /** Beside the rows and samples, an apply writes the cached list of its page, in page order and with
      its address and time, and drops the archive entries of the configs on the page. */
  lemma AppliedTables(db: Db, source: Source, url: string, page: seq<FetchedConfig>, now: int, key: string,
      entry: (string, string))
    ensures var after := Applied(db, source, url, page, now);
            && UrlKey(source) in after.cache
            && var row := after.cache[UrlKey(source)];
            && row.url == url && row.lastSuccessAt == now && |row.ids| == |page|
            && (forall i :: 0 <= i < |page| ==> row.ids[i] == page[i].id)
            && (key != UrlKey(source) ==>
                  (key in after.cache <==> key in db.cache) && (key in db.cache ==> after.cache[key] == db.cache[key]))
            && (entry in after.archives
                <==> entry in db.archives && forall i :: 0 <= i < |page| ==> page[i].id != entry.1)
            && (entry in after.archives ==> after.archives[entry] == db.archives[entry])
  {
  }

  /** A retire drops the cached lists of its targets and touches neither archives nor samples. */
  lemma RetiredTables(db: Db, targets: set<Source>, now: int, key: string)
    ensures var after := Retired(db, targets, now);
            && after.archives == db.archives && after.samples == db.samples
            && (key in after.cache <==> key in db.cache && forall target :: target in targets ==> UrlKey(target) != key)
            && (key in after.cache ==> after.cache[key] == db.cache[key])
  {
  }
}
