/** The refresh and the probe as the running program performs them, on the stored topology, the
    catalog tables and the snapshot in memory. */
module TopologyService {
  import opened Wrappers
  import opened Sources
  import opened KeyedLists
  import opened CatalogStore
  import opened CatalogLifecycle
  import CatalogRuns
  import opened Topology
  import opened Prefetching
  import opened TopologyRefresh

  class Service {
    const store: Store
    var countries: seq<Country>
    var regions: seq<Region>
    var notices: StoredNotices
    var snapshot: Snapshot

    constructor (store: Store, snapshot: Snapshot)
      ensures this.store == store
      ensures Current() == State(store.Tables(), [], [], map[], snapshot)
    {
      this.store := store;
      this.snapshot := snapshot;
      countries, regions, notices := [], [], map[];
    }

    function Current(): State
      reads this, store
    {
      State(store.Tables(), countries, regions, notices, snapshot)
    }

    /** Replaces the stored rows in one transaction; a repeated primary key rolls it back. */
    method ReplaceCatalogTopology(newCountries: seq<Country>, newRegions: seq<Region>) returns (stored: bool)
      modifies this
      ensures stored <==> CanStore(newCountries, newRegions)
      ensures Current() == if stored
                           then old(Current()).(countries := newCountries, regions := newRegions,
                                                notices := KeptNotices(old(notices), newCountries, newRegions))
                           else old(Current())
    {
      var countryIds := {};
      for i := 0 to |newCountries|
        invariant countryIds == set k | 0 <= k < i :: newCountries[k].id
        invariant forall a, b :: 0 <= a < b < i ==> CountryKey(newCountries[a]) != CountryKey(newCountries[b])
      {
        if newCountries[i].id in countryIds {
          var k :| 0 <= k < i && newCountries[k].id == newCountries[i].id;
          assert CountryKey(newCountries[k]) == CountryKey(newCountries[i]);
          return false;
        }
        countryIds := countryIds + {newCountries[i].id};
      }
      var regionIds := {};
      for i := 0 to |newRegions|
        invariant regionIds == set k | 0 <= k < i :: newRegions[k].id
        invariant forall a, b :: 0 <= a < b < i ==> RegionId(newRegions[a]) != RegionId(newRegions[b])
      {
        if newRegions[i].id in regionIds {
          var k :| 0 <= k < i && newRegions[k].id == newRegions[i].id;
          assert RegionId(newRegions[k]) == RegionId(newRegions[i]);
          return false;
        }
        regionIds := regionIds + {newRegions[i].id};
      }
      countries, regions := newCountries, newRegions;
      notices := KeptNotices(notices, newCountries, newRegions);
      stored := true;
    }

    method ListCatalogTaskKeys() returns (targets: seq<Source>)
      ensures TargetSet(targets) == TaskKeys(countries, regions)
    {
      targets := [];
      for i := 0 to |countries|
        invariant TargetSet(targets) == set country | country in countries[..i] :: Source(country.id, None)
      {
        assert countries[..i + 1] == countries[..i] + [countries[i]];
        AppendTarget(targets, Source(countries[i].id, None));
        targets := targets + [Source(countries[i].id, None)];
      }
      assert countries[..|countries|] == countries;
      ghost var fromCountries := TargetSet(targets);
      for i := 0 to |regions|
        invariant TargetSet(targets) == fromCountries + set region | region in regions[..i] :: RegionSource(region)
      {
        assert regions[..i + 1] == regions[..i] + [regions[i]];
        AppendTarget(targets, RegionSource(regions[i]));
        targets := targets + [RegionSource(regions[i])];
      }
      assert regions[..|regions|] == regions;
    }

    /** The sources of active configs; nothing depends on their order. */
    method ListKnownCatalogTargets() returns (targets: seq<Source>)
      ensures TargetSet(targets) == KnownCatalogTargets(store.configs)
    {
      var left := KnownCatalogTargets(store.configs);
      targets := [];
      while left != {}
        invariant TargetSet(targets) + left == KnownCatalogTargets(store.configs)
        decreases left
      {
        var target :| target in left;
        left := left - {target};
        AppendTarget(targets, target);
        targets := targets + [target];
      }
    }

    method CatalogTargetsFromSnapshot() returns (targets: seq<Source>)
      ensures TargetSet(targets) == SnapshotTargets(snapshot)
    {
      targets := [];
      var withRegions := {};
      for i := 0 to |snapshot.regions|
        invariant TargetSet(targets) == set region | region in snapshot.regions[..i] :: RegionSource(region)
        invariant withRegions == set region | region in snapshot.regions[..i] :: region.countryId
      {
        assert snapshot.regions[..i + 1] == snapshot.regions[..i] + [snapshot.regions[i]];
        withRegions := withRegions + {snapshot.regions[i].countryId};
        AppendTarget(targets, RegionSource(snapshot.regions[i]));
        targets := targets + [RegionSource(snapshot.regions[i])];
      }
      assert snapshot.regions[..|snapshot.regions|] == snapshot.regions;
      ghost var fromRegions := TargetSet(targets);
      forall country
        ensures country in withRegions <==> HasCountryRegion(snapshot.regions, country)
      {
        if country in withRegions {
          var region :| region in snapshot.regions && region.countryId == country;
          var k :| 0 <= k < |snapshot.regions| && snapshot.regions[k] == region;
        }
      }
      for i := 0 to |snapshot.countries|
        invariant TargetSet(targets)
                  == fromRegions + set country | country in snapshot.countries[..i]
                                                 && !HasCountryRegion(snapshot.regions, country.id)
                                     :: Source(country.id, None)
      {
        assert snapshot.countries[..i + 1] == snapshot.countries[..i] + [snapshot.countries[i]];
        if snapshot.countries[i].id !in withRegions {
          AppendTarget(targets, Source(snapshot.countries[i].id, None));
          targets := targets + [Source(snapshot.countries[i].id, None)];
        }
      }
      assert snapshot.countries[..|snapshot.countries|] == snapshot.countries;
    }

    /** All known targets, the first of each url key. */
    method KnownCatalogTargetList() returns (targets: seq<Source>)
      requires Sound(Current())
      ensures TargetSet(targets) == KnownTargets(Current())
      ensures Distinct(targets, UrlKey)
    {
      var known := ListCatalogTaskKeys();
      var fromConfigs := ListKnownCatalogTargets();
      var fromSnapshot := CatalogTargetsFromSnapshot();
      known := known + fromConfigs + fromSnapshot;
      assert TargetSet(known) == KnownTargets(Current());
      AllKnownWellFormed(Current(), known);
      targets := FirstOfEachUrlKey(known);
      PushMissingDistinct([], UrlKey, known);
      DedupKeepsTargets(known);
    }

    method FirstOfEachUrlKey(known: seq<Source>) returns (targets: seq<Source>)
      ensures targets == PushMissing([], UrlKey, known)
    {
      targets := [];
      for i := 0 to |known|
        invariant targets == PushMissing([], UrlKey, known[..i])
      {
        assert known[..i + 1][..i] == known[..i];
        if !HasKey(targets, UrlKey, UrlKey(known[i])) {
          targets := targets + [known[i]];
        }
      }
      assert known[..|known|] == known;
    }

    /** Stores or removes the notice of every place that was read. */
    method PersistTopologyRegionNotices(t: Topology)
      modifies this`notices
      ensures notices == PersistedNotices(old(notices), t)
    {
      var left := t.initializedKeys;
      ghost var done: set<string> := {};
      assert notices == PersistedNotices(old(notices), t.(initializedKeys := done));
      hide PersistedNotices, HasKey, LastOf;
      while left != {}
        invariant left + done == t.initializedKeys && left * done == {}
        invariant notices == PersistedNotices(old(notices), t.(initializedKeys := done))
        decreases left
      {
        var key :| key in left;
        PersistOneMore(old(notices), t, done, key);
        left, done := left - {key}, done + {key};
        notices := if HasKey(t.notices, NoticeUrlKey, key)
                   then notices[key := LastOf(t.notices, NoticeUrlKey, key).text] else notices - {key};
      }
      assert done == t.initializedKeys && t.(initializedKeys := done) == t;
    }

    /** The configs of a page that are applied, or nothing for a country page without any. */
    method PutTogether(target: Source, page: Page, ghost before: Progress, fetched: seq<FetchedConfig>)
      returns (configs: Option<seq<FetchedConfig>>)
      requires before.fetched == fetched
      ensures configs == if IsBlankRoot(target, page) then None else Some(ConfigsFor(before, target, page))
    {
      configs := Some(page.configs);
      if target.gid.None? {
        if !page.authoritative && page.configs == [] {
          return None;
        }
        if page.authoritative {
          var kept := RetainCountryDirectConfigs(page.configs, OfCountry(fetched, target.fid));
          configs := Some(kept);
        }
      }
    }

    method PrefetchOne(target: Source, pages: Pages, ghost before: Progress, fetched: seq<FetchedConfig>)
      returns (ok: bool, applied: seq<FetchedConfig>)
      requires before.db == store.Tables() && before.notices == notices && before.fetched == fetched
      modifies this`notices, store
      ensures var after := Advance(before, target, pages);
              && store.Tables() == after.db && notices == after.notices && fetched + applied == after.fetched
              && after.failed == before.failed + (if ok then {} else {UrlKey(target)})
    {
      hide ConfigsFor, IsBlankRoot, Refused, Applied, ResultOf, PreviousIds, UrlKey, WithNotice;
      ok, applied := false, [];
      assert fetched + [] == fetched;
      if target !in pages {
        return;
      }
      var page := pages[target];
      var configs := PutTogether(target, page, before, fetched);
      if configs.None? {
        return;
      }
      var result := store.ApplyCatalogUrlFetchSuccess(target, page.url, configs.value, page.authoritative, page.at);
      if result.Failure? {
        return;
      }
      notices := WithNotice(notices, target, page.notice);
      ok := true;
      applied := if target.gid.Some? then page.configs else [];
    }

    /** Fetches and applies the pages of added targets, reporting the url keys that failed. */
    method PrefetchAddedTargetCatalogs(order: seq<Source>, pages: Pages) returns (failed: set<string>)
      modifies this`notices, store
      ensures var p := Prefetched(old(store.Tables()), old(notices), order, pages);
              store.Tables() == p.db && notices == p.notices && failed == p.failed
    {
      failed := {};
      var fetched := [];
      for i := 0 to |order|
        invariant Progress(store.Tables(), notices, failed, fetched)
                  == Prefetched(old(store.Tables()), old(notices), order[..i], pages)
      {
        assert order[..i + 1][..i] == order[..i];
        ghost var before := Progress(store.Tables(), notices, failed, fetched);
        var ok, applied := PrefetchOne(order[i], pages, before, fetched);
        fetched := fetched + applied;
        if !ok {
          failed := failed + {UrlKey(order[i])};
        }
      }
      assert order[..|order|] == order;
    }

    method RefusesEmptyTopology(found: Topology) returns (refuses: bool)
      ensures refuses <==> RefusesEmpty(Current(), found)
    {
      var known := ListKnownCatalogTargets();
      assert known != [] ==> known[0] in TargetSet(known);
      refuses := found.countries == [] && (countries != [] || known != []);
    }

    /** The targets whose url key the stored topology no longer has. */
    method RemovedFrom(previousTargets: seq<Source>, ghost before: State) returns (removed: seq<Source>)
      requires TargetSet(previousTargets) == KnownTargets(before)
      ensures TargetSet(removed) == RemovedTargets(before, countries, regions)
    {
      var current := ListCatalogTaskKeys();
      var currentKeys := set target | target in current :: UrlKey(target);
      assert currentKeys == set target | target in TargetSet(current) :: UrlKey(target);
      removed := [];
      for i := 0 to |previousTargets|
        invariant TargetSet(removed) == set target | target in previousTargets[..i] && UrlKey(target) !in currentKeys
      {
        assert previousTargets[..i + 1] == previousTargets[..i] + [previousTargets[i]];
        if UrlKey(previousTargets[i]) !in currentKeys {
          AppendTarget(removed, previousTargets[i]);
          removed := removed + [previousTargets[i]];
        }
      }
      assert previousTargets[..|previousTargets|] == previousTargets;
      assert forall target :: target in previousTargets <==> target in TargetSet(previousTargets);
    }

    method ApplyTopologySnapshot(t: Topology)
      modifies this`snapshot
      ensures snapshot == UpdatedSnapshot(old(snapshot), t)
    {
      var active := (set country | country in t.countries :: Source(country.id, None))
                    + (set region | region in t.regions :: RegionSource(region));
      var activeKeys := set target | target in active :: UrlKey(target);
      var notices := RetainedNotices(snapshot.notices, active);
      for i := 0 to |t.notices|
        invariant notices == PutAll(RetainedNotices(snapshot.notices, active), NoticeKey, t.notices[..i])
      {
        assert t.notices[..i + 1][..i] == t.notices[..i];
        var index := IndexOf(notices, NoticeKey, NoticeKey(t.notices[i]));
        if index < |notices| {
          notices := notices[index := notices[index].(text := t.notices[i].text)];
        } else {
          notices := notices + [t.notices[i]];
        }
      }
      assert t.notices[..|t.notices|] == t.notices;
      snapshot := Snapshot(t.countries, t.regions, notices,
                           (set key | key in snapshot.initializedKeys && key in activeKeys) + t.initializedKeys);
    }

    /** A full refresh: replace the topology, retire what it no longer has, prefetch what is new. */
    method RefreshCatalogTopology(found: Topology, pages: Pages, now: int)
        returns (result: Result<Report, RefreshError>)
      requires Sound(Current())
      modifies this, store
      ensures match Refreshed(old(Current()), found, pages, now)
              case Failure(error) => result == Failure(error) && Current() == old(Current())
              case Success((after, report)) => result == Success(report) && Current() == after
    {
      hide Preserved, MergedProbe, CollectChanges, Retired, Prefetched, UpdatedSnapshot, PersistedNotices, KeptNotices;
      var refuses := RefusesEmptyTopology(found);
      if refuses {
        return Failure(EmptyTopology);
      }
      var t, preservedCountries := PreserveAmbiguousCountryRegions(found, snapshot);
      var addition := MergeTopologyProbeResult(snapshot, t);
      var added := CollectChanges(snapshot, addition.countries, addition.regions);
      var removed := CollectChanges(snapshot, t.countries, t.regions);
      var previousTargets := KnownCatalogTargetList();
      var stored := ReplaceCatalogTopology(t.countries, t.regions);
      if !stored {
        return Failure(DuplicateIds);
      }
      var removedTargets := RemovedFrom(previousTargets, old(Current()));
      var retired := store.RetireCatalogTargets(removedTargets, now);
      PersistTopologyRegionNotices(t);
      var failures := PrefetchAddedTargetCatalogs(PrefetchOrder(added.addedCountries, added.addedRegions), pages);
      ApplyTopologySnapshot(t);
      return Success(Report(added.addedCountries, removed.removedCountries, added.addedRegions, removed.removedRegions,
                            TargetSet(removedTargets), retired, failures));
    }

    /** A probe: merge what was found into the snapshot, and prefetch what is new. */
    method ProbeCatalogTopology(found: Topology, pages: Pages) returns (result: Result<Report, RefreshError>)
      modifies this, store
      ensures match Probed(old(Current()), found, pages)
              case Failure(error) => result == Failure(error) && Current() == old(Current())
              case Success((after, report)) => result == Success(report) && Current() == after
    {
      hide Preserved, MergedProbe, CollectChanges, Prefetched, UpdatedSnapshot, PersistedNotices, KeptNotices;
      var refuses := RefusesEmptyTopology(found);
      if refuses {
        return Failure(EmptyTopology);
      }
      var preserved, preservedCountries := PreserveAmbiguousCountryRegions(found, snapshot);
      var t := MergeTopologyProbeResult(snapshot, preserved);
      var added := CollectChanges(snapshot, t.countries, t.regions);
      var stored := ReplaceCatalogTopology(t.countries, t.regions);
      if !stored {
        return Failure(DuplicateIds);
      }
      PersistTopologyRegionNotices(t);
      var failures := PrefetchAddedTargetCatalogs(PrefetchOrder(added.addedCountries, added.addedRegions), pages);
      ApplyTopologySnapshot(t);
      return Success(Report(added.addedCountries, [], added.addedRegions, [], {}, {}, failures));
    }
  }

  lemma AllKnownWellFormed(s: State, known: seq<Source>)
    requires Sound(s) && TargetSet(known) == KnownTargets(s)
    ensures forall target :: target in known ==> WellFormed(target)
  {
    forall target | target in known
      ensures WellFormed(target)
    {
      assert target in TargetSet(known);
      KnownTargetsWellFormed(s, target);
    }
  }

  lemma AppendTarget(targets: seq<Source>, target: Source)
    ensures TargetSet(targets + [target]) == TargetSet(targets) + {target}
  {
  }

  /** On well-formed targets, keeping the first of each url key keeps every target. */
  lemma {:induction false} DedupKeepsTargets(known: seq<Source>)
    requires forall target :: target in known ==> WellFormed(target)
    ensures TargetSet(PushMissing([], UrlKey, known)) == TargetSet(known)
  {
    if known != [] {
      var n := |known| - 1;
      DedupKeepsTargets(known[..n]);
      var before := PushMissing([], UrlKey, known[..n]);
      assert known == known[..n] + [known[n]];
      AppendTarget(known[..n], known[n]);
      AppendTarget(before, known[n]);
      if HasKey(before, UrlKey, UrlKey(known[n])) {
        var i :| 0 <= i < |before| && UrlKey(before[i]) == UrlKey(known[n]);
        assert before[i] in TargetSet(before);
        UrlKeyIsInjective(before[i], known[n]);
      }
    }
  }
}
