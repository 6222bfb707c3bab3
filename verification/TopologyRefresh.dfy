/** The stored topology, the targets it gives, and the full refresh and the probe that change it
    together with the catalog tables. */
module TopologyRefresh {
  import opened Wrappers
  import opened Sources
  import opened KeyedLists
  import opened Ordering
  import opened CatalogStore
  import opened CatalogLifecycle
  import opened Topology
  import opened Prefetching

  /** Region ids are a primary key of their own, across countries. */
  function RegionId(r: Region): string { r.id }

  /** The condition under which the topology tables take the rows: no primary key twice. */
  ghost predicate CanStore(countries: seq<Country>, regions: seq<Region>) {
    Distinct(countries, CountryKey) && Distinct(regions, RegionId)
  }

  function TaskKeys(countries: seq<Country>, regions: seq<Region>): set<Source> {
    (set country | country in countries :: Source(country.id, None))
      + (set region | region in regions :: RegionSource(region))
  }

  function KnownCatalogTargets(configs: Configs): set<Source> {
    set id | id in configs && configs[id].state == Active :: configs[id].source
  }

  function SnapshotTargets(snapshot: Snapshot): set<Source> {
    (set region | region in snapshot.regions :: RegionSource(region))
    + (set country | country in snapshot.countries && !HasCountryRegion(snapshot.regions, country.id)
         :: Source(country.id, None))
  }

  predicate HasCountryRegion(regions: seq<Region>, country: string) {
    exists i :: 0 <= i < |regions| && regions[i].countryId == country
  }

  datatype State = State(
    db: Db, countries: seq<Country>, regions: seq<Region>, notices: StoredNotices, snapshot: Snapshot)

  function KnownTargets(s: State): set<Source> {
    TaskKeys(s.countries, s.regions) + KnownCatalogTargets(s.db.configs) + SnapshotTargets(s.snapshot)
  }

  predicate IsTarget(countries: seq<Country>, regions: seq<Region>, target: Source) {
    if target.gid.None? then HasKey(countries, CountryKey, target.fid) else HasRegion(regions, target)
  }

  /** A target is known if it is stored, or some active config came from it, or memory holds it; of a
      country with regions memory knows the regions only. */
  ghost predicate IsKnown(s: State, target: Source) {
    || IsTarget(s.countries, s.regions, target)
    || (exists id :: IsActive(s.db.configs, id) && s.db.configs[id].source == target)
    || (&& IsTarget(s.snapshot.countries, s.snapshot.regions, target)
        && (target.gid.None? ==> forall region :: region in s.snapshot.regions ==> region.countryId != target.fid))
  }

  lemma KnownExactly(s: State, target: Source)
    ensures target in KnownTargets(s) <==> IsKnown(s, target)
  {
    HasKeyIsTarget(s.countries, s.regions, target);
    HasKeyIsTarget(s.snapshot.countries, s.snapshot.regions, target);
    KnownTargetIsActive(s.db.configs, target);
    assert target in KnownCatalogTargets(s.db.configs)
           <==> exists id :: IsActive(s.db.configs, id) && s.db.configs[id].source == target;
    SnapshotTargetsExactly(s.snapshot, target);
  }

  lemma SnapshotTargetsExactly(snapshot: Snapshot, target: Source)
    ensures target in SnapshotTargets(snapshot)
            <==> && IsTarget(snapshot.countries, snapshot.regions, target)
                 && (target.gid.None? ==>
                       forall region :: region in snapshot.regions ==> region.countryId != target.fid)
  {
    HasKeyIsTarget(snapshot.countries, snapshot.regions, target);
    assert HasCountryRegion(snapshot.regions, target.fid)
           <==> exists region :: region in snapshot.regions && region.countryId == target.fid by {
      if region :| region in snapshot.regions && region.countryId == target.fid {
        var i :| 0 <= i < |snapshot.regions| && snapshot.regions[i] == region;
      }
    }
    if target.gid.None? {
      assert target in TaskKeys(snapshot.countries, snapshot.regions)
             <==> exists country :: country in snapshot.countries && country.id == target.fid;
    } else {
      assert target in TaskKeys(snapshot.countries, snapshot.regions)
             <==> exists region :: region in snapshot.regions && RegionSource(region) == target;
    }
  }

  /** The page identifiers in play are well formed, and the catalog tables are consistent. */
  ghost predicate Sound(s: State) {
    && Consistent(s.db)
    && TopologyWellFormed(s.countries, s.regions)
    && TopologyWellFormed(s.snapshot.countries, s.snapshot.regions)
  }

  lemma TopologyTargetsWellFormed(countries: seq<Country>, regions: seq<Region>, target: Source)
    requires TopologyWellFormed(countries, regions) && target in TaskKeys(countries, regions)
    ensures WellFormed(target)
  {
    if country :| country in countries && target == Source(country.id, None) {
      var i :| 0 <= i < |countries| && countries[i] == country;
    } else {
      var region :| region in regions && target == RegionSource(region);
      var i :| 0 <= i < |regions| && regions[i] == region;
    }
  }

  lemma KnownTargetsWellFormed(s: State, target: Source)
    requires Sound(s) && target in KnownTargets(s)
    ensures WellFormed(target)
  {
    if target in TaskKeys(s.countries, s.regions) {
      TopologyTargetsWellFormed(s.countries, s.regions, target);
    } else if target in KnownCatalogTargets(s.db.configs) {
      var id :| id in s.db.configs && s.db.configs[id].source == target;
    } else {
      assert target in TaskKeys(s.snapshot.countries, s.snapshot.regions);
      TopologyTargetsWellFormed(s.snapshot.countries, s.snapshot.regions, target);
    }
  }

  // The order in which the pages of added targets are prefetched.

  function RegionsOfChange(changes: seq<RegionChange>, country: string): (r: seq<Source>)
    ensures forall target :: target in r ==> target.fid == country && NamesRegion(changes, target)
  {
    if changes == [] then []
    else
      var n := |changes| - 1;
      var before := RegionsOfChange(changes[..n], country);
      assert forall i :: 0 <= i < n ==> changes[..n][i] == changes[i];
      assert forall target :: NamesRegion(changes[..n], target) ==> NamesRegion(changes, target);
      if changes[n].countryId == country then
        assert NamesRegion(changes, Source(changes[n].countryId, Some(changes[n].regionId)));
        before + [Source(changes[n].countryId, Some(changes[n].regionId))]
      else before
  }

  /** For each added country its added regions and then the country page. */
  function CountryOrder(countries: seq<CountryChange>, regions: seq<RegionChange>): (r: seq<Source>)
    ensures forall target :: target in r ==>
              NamesCountry(countries, target.fid) && (target.gid.Some? ==> NamesRegion(regions, target))
  {
    if countries == [] then []
    else
      var n := |countries| - 1;
      assert forall i :: 0 <= i < n ==> countries[..n][i] == countries[i];
      assert forall id :: NamesCountry(countries[..n], id) ==> NamesCountry(countries, id);
      assert NamesCountry(countries, countries[n].id);
      CountryOrder(countries[..n], regions) + RegionsOfChange(regions, countries[n].id)
        + [Source(countries[n].id, None)]
  }

  /** The added regions of countries that were already there. */
  function OtherRegions(countries: seq<CountryChange>, regions: seq<RegionChange>): (r: seq<Source>)
    ensures forall target :: target in r ==> NamesRegion(regions, target)
  {
    if regions == [] then []
    else
      var n := |regions| - 1;
      assert forall i :: 0 <= i < n ==> regions[..n][i] == regions[i];
      assert forall target :: NamesRegion(regions[..n], target) ==> NamesRegion(regions, target);
      var target := Source(regions[n].countryId, Some(regions[n].regionId));
      assert NamesRegion(regions, target);
      var before := OtherRegions(countries, regions[..n]);
      if NamesCountry(countries, target.fid) || target in before then before else before + [target]
  }

  function PrefetchOrder(countries: seq<CountryChange>, regions: seq<RegionChange>): seq<Source> {
    CountryOrder(countries, regions) + OtherRegions(countries, regions)
  }

  // The stored notices.

  /** Storing a topology drops the notices of targets it does not have. */
  function KeptNotices(notices: StoredNotices, countries: seq<Country>, regions: seq<Region>): StoredNotices {
    var keys := set target | target in TaskKeys(countries, regions) :: UrlKey(target);
    map key | key in notices && key in keys :: notices[key]
  }

  /** And then stores, for every place whose notice was read, what was read last. */
  function PersistedNotices(notices: StoredNotices, t: Topology): StoredNotices {
    map key | key in notices.Keys + t.initializedKeys
              && (key in t.initializedKeys ==> HasKey(t.notices, NoticeUrlKey, key)) ::
      if key in t.initializedKeys then LastOf(t.notices, NoticeUrlKey, key).text else notices[key]
  }

  /** One more place that was read: its stored notice is set, or removed if nothing was found. */
  lemma PersistOneMore(notices: StoredNotices, t: Topology, done: set<string>, key: string)
    requires key !in done
    ensures var before := PersistedNotices(notices, t.(initializedKeys := done));
            PersistedNotices(notices, t.(initializedKeys := done + {key}))
            == if HasKey(t.notices, NoticeUrlKey, key)
               then before[key := LastOf(t.notices, NoticeUrlKey, key).text] else before - {key}
  {
  }

  function StoredAfter(notices: StoredNotices, t: Topology): StoredNotices {
    PersistedNotices(KeptNotices(notices, t.countries, t.regions), t)
  }

  // The refresh.

  datatype RefreshError = EmptyTopology | DuplicateIds

  datatype Report = Report(
    addedCountries: seq<CountryChange>,
    removedCountries: seq<CountryChange>,
    addedRegions: seq<RegionChange>,
    removedRegions: seq<RegionChange>,
    removedTargets: set<Source>,
    retired: set<string>,
    prefetchFailures: set<string>)

  predicate RefusesEmpty(s: State, topology: Topology) {
    topology.countries == [] && (s.countries != [] || KnownCatalogTargets(s.db.configs) != {})
  }

  function UpdatedSnapshot(snapshot: Snapshot, t: Topology): Snapshot {
    var active := (set country | country in t.countries :: Source(country.id, None))
                  + (set region | region in t.regions :: RegionSource(region));
    var activeKeys := set target | target in active :: UrlKey(target);
    Snapshot(
      t.countries,
      t.regions,
      PutAll(RetainedNotices(snapshot.notices, active), NoticeKey, t.notices),
      (set key | key in snapshot.initializedKeys && key in activeKeys) + t.initializedKeys)
  }

  function RetainedNotices(notices: seq<Notice>, active: set<Source>): seq<Notice> {
    if notices == [] then []
    else
      var n := |notices| - 1;
      RetainedNotices(notices[..n], active)
      + (if Source(notices[n].countryId, notices[n].regionId) in active then [notices[n]] else [])
  }

  function RemovedTargets(s: State, countries: seq<Country>, regions: seq<Region>): set<Source> {
    var currentKeys := set target | target in TaskKeys(countries, regions) :: UrlKey(target);
    set target | target in KnownTargets(s) && UrlKey(target) !in currentKeys
  }

  /** The targets to prefetch when a topology adds to the snapshot. */
  function AddedOrder(previous: Snapshot, countries: seq<Country>, regions: seq<Region>): seq<Source> {
    var added := CollectChanges(previous, countries, regions);
    PrefetchOrder(added.addedCountries, added.addedRegions)
  }

  /** The effect of a full refresh that found the given topology. */
  ghost function Refreshed(s: State, found: Topology, pages: Pages, now: int): Result<(State, Report), RefreshError> {
    if RefusesEmpty(s, found) then Failure(EmptyTopology)
    else
      var t := Preserved(found, s.snapshot, found.ambiguous);
      if !CanStore(t.countries, t.regions) then Failure(DuplicateIds)
      else
        var merged := MergedProbe(s.snapshot, t);
        var added := CollectChanges(s.snapshot, merged.countries, merged.regions);
        var removed := CollectChanges(s.snapshot, t.countries, t.regions);
        var removedTargets := RemovedTargets(s, t.countries, t.regions);
        var p := Prefetched(Retired(s.db, removedTargets, now), StoredAfter(s.notices, t),
                            AddedOrder(s.snapshot, merged.countries, merged.regions), pages);
        Success((State(p.db, t.countries, t.regions, p.notices, UpdatedSnapshot(s.snapshot, t)),
                 Report(added.addedCountries, removed.removedCountries, added.addedRegions, removed.removedRegions,
                        removedTargets, RetiredIds(s.db.configs, removedTargets), p.failed)))
  }

  /** The effect of a probe: additions only, and nothing is retired. */
  ghost function Probed(s: State, found: Topology, pages: Pages): Result<(State, Report), RefreshError> {
    if RefusesEmpty(s, found) then Failure(EmptyTopology)
    else
      var t := MergedProbe(s.snapshot, Preserved(found, s.snapshot, found.ambiguous));
      if !CanStore(t.countries, t.regions) then Failure(DuplicateIds)
      else
        var added := CollectChanges(s.snapshot, t.countries, t.regions);
        var p := Prefetched(s.db, StoredAfter(s.notices, t), AddedOrder(s.snapshot, t.countries, t.regions), pages);
        Success((State(p.db, t.countries, t.regions, p.notices, UpdatedSnapshot(s.snapshot, t)),
                 Report(added.addedCountries, [], added.addedRegions, [], {}, {}, p.failed)))
  }

  lemma HasKeyIsTarget(countries: seq<Country>, regions: seq<Region>, target: Source)
    ensures target in TaskKeys(countries, regions)
            <==> if target.gid.None? then HasKey(countries, CountryKey, target.fid) else HasRegion(regions, target)
  {
    if target.gid.None? {
      if HasKey(countries, CountryKey, target.fid) {
        var i :| 0 <= i < |countries| && CountryKey(countries[i]) == target.fid;
        assert countries[i] in countries && Source(countries[i].id, None) == target;
      }
      if target in TaskKeys(countries, regions) {
        var country :| country in countries && Source(country.id, None) == target;
        var i :| 0 <= i < |countries| && countries[i] == country;
        assert CountryKey(countries[i]) == target.fid;
      }
    } else {
      if HasRegion(regions, target) {
        var i :| 0 <= i < |regions| && RegionKey(regions[i]) == (target.fid, target.gid.value);
        assert regions[i] in regions && RegionSource(regions[i]) == target;
      }
      if target in TaskKeys(countries, regions) {
        var region :| region in regions && RegionSource(region) == target;
        var i :| 0 <= i < |regions| && regions[i] == region;
        assert RegionKey(regions[i]) == (target.fid, target.gid.value);
      }
    }
  }

  /** Well-formedness as a statement about every target. */
  lemma WellFormedByTargets(countries: seq<Country>, regions: seq<Region>)
    requires forall target :: target in TaskKeys(countries, regions) ==> WellFormed(target)
    ensures TopologyWellFormed(countries, regions)
  {
    forall i | 0 <= i < |countries|
      ensures WellFormed(Source(countries[i].id, None))
    {
      assert Source(countries[i].id, None) in TaskKeys(countries, regions);
    }
    forall i | 0 <= i < |regions|
      ensures WellFormed(RegionSource(regions[i]))
    {
      assert RegionSource(regions[i]) in TaskKeys(countries, regions);
    }
  }

  lemma PreservedTargets(found: Topology, previous: Snapshot, target: Source)
    ensures var t := Preserved(found, previous, found.ambiguous);
            target in TaskKeys(t.countries, t.regions)
            <==> target in TaskKeys(found.countries, found.regions)
                 || (target.gid.Some? && target.fid in found.ambiguous && HasRegion(previous.regions, target))
  {
    var t := Preserved(found, previous, found.ambiguous);
    HasKeyIsTarget(t.countries, t.regions, target);
    HasKeyIsTarget(found.countries, found.regions, target);
    PreservedRegionKeys(found, previous, found.ambiguous,
      (target.fid, if target.gid.Some? then target.gid.value else ""));
  }

  lemma MergedTargets(previous: Snapshot, t: Topology, target: Source)
    ensures var merged := MergedProbe(previous, t);
            target in TaskKeys(merged.countries, merged.regions)
            <==> target in TaskKeys(t.countries, t.regions) || target in TaskKeys(previous.countries, previous.regions)
  {
    var merged := MergedProbe(previous, t);
    HasKeyIsTarget(merged.countries, merged.regions, target);
    HasKeyIsTarget(t.countries, t.regions, target);
    HasKeyIsTarget(previous.countries, previous.regions, target);
    PutAllKeys(previous.countries, CountryKey, t.countries, target.fid);
    PutAllKeys(previous.regions, RegionKey, t.regions, (target.fid, if target.gid.Some? then target.gid.value else ""));
  }

  lemma TopologiesWellFormed(previous: Snapshot, found: Topology)
    requires TopologyWellFormed(previous.countries, previous.regions)
             && TopologyWellFormed(found.countries, found.regions)
    ensures var t := Preserved(found, previous, found.ambiguous);
            var merged := MergedProbe(previous, t);
            TopologyWellFormed(t.countries, t.regions) && TopologyWellFormed(merged.countries, merged.regions)
  {
    var t := Preserved(found, previous, found.ambiguous);
    var merged := MergedProbe(previous, t);
    forall target | target in TaskKeys(merged.countries, merged.regions) || target in TaskKeys(t.countries, t.regions)
      ensures WellFormed(target)
    {
      MergedTargets(previous, t, target);
      PreservedTargets(found, previous, target);
      if target in TaskKeys(found.countries, found.regions) {
        TopologyTargetsWellFormed(found.countries, found.regions, target);
      } else {
        HasKeyIsTarget(previous.countries, previous.regions, target);
        TopologyTargetsWellFormed(previous.countries, previous.regions, target);
      }
    }
    WellFormedByTargets(t.countries, t.regions);
    WellFormedByTargets(merged.countries, merged.regions);
  }

  lemma PrefetchedIsAdded(countries: seq<CountryChange>, regions: seq<RegionChange>, target: Source)
    ensures target in PrefetchOrder(countries, regions)
            ==> if target.gid.None? then NamesCountry(countries, target.fid) else NamesRegion(regions, target)
  {
  }

  /** Only new targets are prefetched. */
  lemma PrefetchedAreNew(previous: Snapshot, countries: seq<Country>, regions: seq<Region>)
    requires TopologyWellFormed(previous.countries, previous.regions) && TopologyWellFormed(countries, regions)
    ensures forall target :: target in AddedOrder(previous, countries, regions)
              ==> target in TaskKeys(countries, regions) && target !in TaskKeys(previous.countries, previous.regions)
  {
    var added := CollectChanges(previous, countries, regions);
    forall target | target in AddedOrder(previous, countries, regions)
      ensures target in TaskKeys(countries, regions) && target !in TaskKeys(previous.countries, previous.regions)
    {
      PrefetchedIsAdded(added.addedCountries, added.addedRegions, target);
      ChangesAreExact(previous, countries, regions, target.fid, target);
      HasKeyIsTarget(countries, regions, target);
      HasKeyIsTarget(previous.countries, previous.regions, target);
    }
  }

  /** What is prefetched after a merge is a target of the topology that was merged in. */
  lemma PrefetchedAreTargets(previous: Snapshot, t: Topology)
    requires TopologyWellFormed(previous.countries, previous.regions)
    requires TopologyWellFormed(MergedProbe(previous, t).countries, MergedProbe(previous, t).regions)
    ensures var merged := MergedProbe(previous, t);
            forall target :: target in AddedOrder(previous, merged.countries, merged.regions)
              ==> target in TaskKeys(t.countries, t.regions)
  {
    var merged := MergedProbe(previous, t);
    PrefetchedAreNew(previous, merged.countries, merged.regions);
    forall target | target in AddedOrder(previous, merged.countries, merged.regions)
      ensures target in TaskKeys(t.countries, t.regions)
    {
      MergedTargets(previous, t, target);
    }
  }

  lemma RetiredActive(db: Db, targets: set<Source>, now: int, source: Source)
    ensures ActiveFrom(Retired(db, targets, now).configs, source)
            == if source in targets then {} else ActiveFrom(db.configs, source)
  {
  }

  lemma KnownTargetIsActive(configs: Configs, source: Source)
    ensures source in KnownCatalogTargets(configs) <==> ActiveFrom(configs, source) != {}
  {
    if ActiveFrom(configs, source) != {} {
      var id :| id in ActiveFrom(configs, source);
      assert id in configs && configs[id].state == Active && configs[id].source == source;
    }
    if source in KnownCatalogTargets(configs) {
      var id :| id in configs && configs[id].state == Active && configs[id].source == source;
      assert id in ActiveFrom(configs, source);
    }
  }

  lemma RemovedTargetsAreNotCurrent(s: State, countries: seq<Country>, regions: seq<Region>, target: Source)
    requires Sound(s) && TopologyWellFormed(countries, regions)
    ensures target in RemovedTargets(s, countries, regions)
            <==> target in KnownTargets(s) && target !in TaskKeys(countries, regions)
  {
    if target in KnownTargets(s) {
      KnownTargetsWellFormed(s, target);
      var keys := set current | current in TaskKeys(countries, regions) :: UrlKey(current);
      if UrlKey(target) in keys {
        var current :| current in TaskKeys(countries, regions) && UrlKey(current) == UrlKey(target);
        TopologyTargetsWellFormed(countries, regions, current);
        UrlKeyIsInjective(current, target);
      }
    }
  }

  /** Retiring the removed targets and prefetching current ones leaves current sources only. */
  lemma StaleSourcesAreGone(s: State, countries: seq<Country>, regions: seq<Region>, order: seq<Source>,
      notices: StoredNotices, pages: Pages, now: int, source: Source)
    requires Sound(s) && TopologyWellFormed(countries, regions) && PagesParsed(pages)
    requires forall target :: target in order ==> target in TaskKeys(countries, regions)
    requires var retired := Retired(s.db, RemovedTargets(s, countries, regions), now);
             source in KnownCatalogTargets(Prefetched(retired, notices, order, pages).db.configs)
    ensures source in TaskKeys(countries, regions)
  {
    var targets := RemovedTargets(s, countries, regions);
    var retired := Retired(s.db, targets, now);
    var after := Prefetched(retired, notices, order, pages).db;
    RetireConsistent(s.db, targets, now);
    PrefetchConsistent(retired, notices, order, pages);
    if source !in order {
      var id :| id in after.configs && after.configs[id].state == Active && after.configs[id].source == source;
      PrefetchActivates(retired, notices, order, pages, source);
      KnownTargetIsActive(after.configs, source);
      RetiredActive(s.db, targets, now, source);
      KnownTargetIsActive(s.db.configs, source);
      RemovedTargetsAreNotCurrent(s, countries, regions, source);
    }
  }

  /** What a refresh does to the tables: retire what is no longer a target, then prefetch current
      targets. */
  lemma RefreshParts(s: State, found: Topology, pages: Pages, now: int)
    returns (order: seq<Source>, notices: StoredNotices)
    requires Sound(s) && TopologyWellFormed(found.countries, found.regions)
    ensures Refreshed(s, found, pages, now).Success? ==>
              var t := Refreshed(s, found, pages, now).value.0;
              && var retired := Retired(s.db, RemovedTargets(s, t.countries, t.regions), now);
              && t.db == Prefetched(retired, notices, order, pages).db
              && t.snapshot.countries == t.countries && t.snapshot.regions == t.regions
              && TopologyWellFormed(t.countries, t.regions)
              && forall target :: target in order ==> target in TaskKeys(t.countries, t.regions)
  {
    order := RefreshOrder(s, found);
    notices := StoredAfter(s.notices, Preserved(found, s.snapshot, found.ambiguous));
  }

  /** The targets that a refresh prefetches are targets of the topology it stores. */
  lemma RefreshOrder(s: State, found: Topology) returns (order: seq<Source>)
    requires Sound(s) && TopologyWellFormed(found.countries, found.regions)
    ensures var t := Preserved(found, s.snapshot, found.ambiguous);
            var merged := MergedProbe(s.snapshot, t);
            && order == AddedOrder(s.snapshot, merged.countries, merged.regions)
            && TopologyWellFormed(t.countries, t.regions)
            && forall target :: target in order ==> target in TaskKeys(t.countries, t.regions)
  {
    var t := Preserved(found, s.snapshot, found.ambiguous);
    var merged := MergedProbe(s.snapshot, t);
    order := AddedOrder(s.snapshot, merged.countries, merged.regions);
    TopologiesWellFormed(s.snapshot, found);
    PrefetchedAreTargets(s.snapshot, t);
  }

  /** After a refresh the state is sound again, and every active config comes from a target of the
      stored topology. */
  lemma RefreshLeavesOnlyCurrentSources(s: State, found: Topology, pages: Pages, now: int)
    requires Sound(s) && TopologyWellFormed(found.countries, found.regions) && PagesParsed(pages)
    ensures Refreshed(s, found, pages, now).Success? ==>
              var t := Refreshed(s, found, pages, now).value.0;
              Sound(t) && KnownCatalogTargets(t.db.configs) <= TaskKeys(t.countries, t.regions)
  {
    hide Refreshed, Prefetched, Retired, RemovedTargets;
    var order, notices := RefreshParts(s, found, pages, now);
    if Refreshed(s, found, pages, now).Success? {
      var t := Refreshed(s, found, pages, now).value.0;
      var targets := RemovedTargets(s, t.countries, t.regions);
      RetireConsistent(s.db, targets, now);
      PrefetchConsistent(Retired(s.db, targets, now), notices, order, pages);
      forall source | source in KnownCatalogTargets(t.db.configs)
        ensures source in TaskKeys(t.countries, t.regions)
      {
        StaleSourcesAreGone(s, t.countries, t.regions, order, notices, pages, now, source);
      }
    }
  }

  lemma PreservedRegionsStay(s: State, found: Topology, region: Source)
    requires Sound(s) && TopologyWellFormed(found.countries, found.regions)
    requires region.fid in found.ambiguous && HasRegion(s.snapshot.regions, region)
    ensures var t := Preserved(found, s.snapshot, found.ambiguous);
            && HasRegion(t.regions, region)
            && !NamesRegion(CollectChanges(s.snapshot, t.countries, t.regions).removedRegions, region)
            && region !in RemovedTargets(s, t.countries, t.regions)
  {
    var t := Preserved(found, s.snapshot, found.ambiguous);
    TopologiesWellFormed(s.snapshot, found);
    PreservedTargets(found, s.snapshot, region);
    HasKeyIsTarget(t.countries, t.regions, region);
    ChangesAreExact(s.snapshot, t.countries, t.regions, region.fid, region);
    RemovedTargetsAreNotCurrent(s, t.countries, t.regions, region);
  }

  lemma KnownTargetsAreNotAdded(s: State, found: Topology, target: Source)
    requires Sound(s) && TopologyWellFormed(found.countries, found.regions)
    requires target in TaskKeys(s.snapshot.countries, s.snapshot.regions)
    ensures var merged := MergedProbe(s.snapshot, Preserved(found, s.snapshot, found.ambiguous));
            target !in AddedOrder(s.snapshot, merged.countries, merged.regions)
  {
    var merged := MergedProbe(s.snapshot, Preserved(found, s.snapshot, found.ambiguous));
    TopologiesWellFormed(s.snapshot, found);
    PrefetchedAreNew(s.snapshot, merged.countries, merged.regions);
  }

  lemma OtherTargetsKeepTheirConfigs(db: Db, retired: set<Source>, notices: StoredNotices, order: seq<Source>,
      pages: Pages, now: int, target: Source)
    requires Consistent(db) && PagesParsed(pages) && WellFormed(target)
    requires target !in retired && target !in order
    ensures ActiveFrom(Prefetched(Retired(db, retired, now), notices, order, pages).db.configs, target)
            == ActiveFrom(db.configs, target)
  {
    RetireConsistent(db, retired, now);
    PrefetchActivates(Retired(db, retired, now), notices, order, pages, target);
    RetiredActive(db, retired, now, target);
  }

  /** A refresh leaves the active configs of a target that the snapshot had alone, unless it is
      removed. */
  lemma KnownTargetsKeepTheirConfigs(s: State, found: Topology, pages: Pages, now: int, target: Source)
    requires Sound(s) && TopologyWellFormed(found.countries, found.regions) && PagesParsed(pages)
    requires target in TaskKeys(s.snapshot.countries, s.snapshot.regions)
    ensures Refreshed(s, found, pages, now).Success? ==>
              var (after, report) := Refreshed(s, found, pages, now).value;
              target !in report.removedTargets ==>
                ActiveFrom(after.db.configs, target) == ActiveFrom(s.db.configs, target)
  {
    hide Prefetched, Retired, ActiveFrom, CollectChanges, MergedProbe, Preserved, AddedOrder, StoredAfter,
      UpdatedSnapshot;
    var t := Preserved(found, s.snapshot, found.ambiguous);
    var merged := MergedProbe(s.snapshot, t);
    var removed := RemovedTargets(s, t.countries, t.regions);
    KnownTargetsAreNotAdded(s, found, target);
    TopologyTargetsWellFormed(s.snapshot.countries, s.snapshot.regions, target);
    if target !in removed {
      OtherTargetsKeepTheirConfigs(
        s.db, removed, StoredAfter(s.notices, t), AddedOrder(s.snapshot, merged.countries, merged.regions), pages, now,
        target);
    }
  }

  /** No region that the previous snapshot holds for an ambiguous country is reported as removed,
      none of its configs is retired, and its active configs stay exactly the same. */
  lemma AmbiguousCountriesKeepTheirRegions(
    s: State, found: Topology, pages: Pages, now: int, region: Source, id: string)
    requires Sound(s) && TopologyWellFormed(found.countries, found.regions) && PagesParsed(pages)
    requires region.fid in found.ambiguous && HasRegion(s.snapshot.regions, region)
    ensures Refreshed(s, found, pages, now).Success? ==>
              var (after, report) := Refreshed(s, found, pages, now).value;
              && HasRegion(after.regions, region)
              && !NamesRegion(report.removedRegions, region)
              && region !in report.removedTargets
              && (id in s.db.configs && s.db.configs[id].source == region ==> id !in report.retired)
              && ActiveFrom(after.db.configs, region) == ActiveFrom(s.db.configs, region)
  {
    PreservedRegionsStay(s, found, region);
    HasKeyIsTarget(s.snapshot.countries, s.snapshot.regions, region);
    KnownTargetsKeepTheirConfigs(s, found, pages, now, region);
  }

  /** A refresh retires exactly the configs whose source is no longer a target. */
  lemma RefreshRetiresExactlyTheStale(s: State, found: Topology, pages: Pages, now: int, id: string)
    requires Sound(s) && TopologyWellFormed(found.countries, found.regions)
    ensures Refreshed(s, found, pages, now).Success? && IsActive(s.db.configs, id) ==>
              var (after, report) := Refreshed(s, found, pages, now).value;
              id in report.retired <==> s.db.configs[id].source !in TaskKeys(after.countries, after.regions)
  {
    var t := Preserved(found, s.snapshot, found.ambiguous);
    TopologiesWellFormed(s.snapshot, found);
    if IsActive(s.db.configs, id) {
      assert s.db.configs[id].source in KnownCatalogTargets(s.db.configs);
      RemovedTargetsAreNotCurrent(s, t.countries, t.regions, s.db.configs[id].source);
    }
  }

  /** A change list names exactly the countries of the first list that the second lacks. */
  ghost predicate ListsCountries(changes: seq<CountryChange>, countries: seq<Country>, known: seq<Country>) {
    forall c :: c in changes <==>
      exists country :: country in countries && !HasKey(known, CountryKey, country.id)
                        && c == CountryChange(country.id, country.name)
  }

  /** The same for regions, with the names of their countries. */
  ghost predicate ListsRegions(
    changes: seq<RegionChange>, regions: seq<Region>, known: seq<Region>, names: seq<Country>)
  {
    forall c :: c in changes <==>
      exists region :: region in regions && !HasRegion(known, RegionSource(region))
                       && c == RegionChange(region.countryId, CountryName(names, region.countryId), region.id,
                                            region.name)
  }

  lemma CountriesListed(countries: seq<Country>, known: seq<Country>)
    ensures ListsCountries(Sort(CountryChanges(Without(countries, CountryKey, known)), CountryBefore), countries, known)
  {
    var left := Without(countries, CountryKey, known);
    var changes := CountryChanges(left);
    forall c
      ensures c in Sort(changes, CountryBefore)
              <==> exists country :: country in countries && !HasKey(known, CountryKey, country.id)
                                     && c == CountryChange(country.id, country.name)
    {
      SortMembers(changes, CountryBefore, c);
      if c in changes {
        var i :| 0 <= i < |changes| && changes[i] == c;
        WithoutMembers(countries, CountryKey, known, left[i]);
      }
      if country :| country in countries && !HasKey(known, CountryKey, country.id)
                    && c == CountryChange(country.id, country.name) {
        WithoutMembers(countries, CountryKey, known, country);
        var i :| 0 <= i < |left| && left[i] == country;
        assert changes[i] == c;
      }
    }
  }

  lemma RegionsListed(regions: seq<Region>, known: seq<Region>, names: seq<Country>)
    requires forall i :: 0 <= i < |regions| ==> WellFormed(RegionSource(regions[i]))
    requires forall i :: 0 <= i < |known| ==> WellFormed(RegionSource(known[i]))
    ensures ListsRegions(Sort(RegionChanges(Without(regions, RegionUrlKey, known), names), RegionBefore), regions,
                         known, names)
  {
    var left := Without(regions, RegionUrlKey, known);
    var changes := RegionChanges(left, names);
    forall region | region in regions
      ensures HasKey(known, RegionUrlKey, RegionUrlKey(region)) <==> HasRegion(known, RegionSource(region))
    {
      UrlKeyFindsRegion(known, region);
    }
    forall c
      ensures c in Sort(changes, RegionBefore)
              <==> exists region :: region in regions && !HasRegion(known, RegionSource(region))
                     && c == RegionChange(region.countryId, CountryName(names, region.countryId), region.id,
                                          region.name)
    {
      SortMembers(changes, RegionBefore, c);
      if c in changes {
        var i :| 0 <= i < |changes| && changes[i] == c;
        WithoutMembers(regions, RegionUrlKey, known, left[i]);
      }
      if region :| region in regions && !HasRegion(known, RegionSource(region))
                   && c == RegionChange(region.countryId, CountryName(names, region.countryId), region.id,
                                        region.name) {
        WithoutMembers(regions, RegionUrlKey, known, region);
        var i :| 0 <= i < |left| && left[i] == region;
        assert changes[i] == c;
      }
    }
  }

  /** A refresh reports exactly what its stored topology adds to the snapshot and what it lacks of it,
      with the names in use, and exactly the known targets that it drops. */
  lemma RefreshReportsExactly(s: State, found: Topology, pages: Pages, now: int)
    requires Sound(s) && TopologyWellFormed(found.countries, found.regions)
    ensures Refreshed(s, found, pages, now).Success? ==>
              var (after, report) := Refreshed(s, found, pages, now).value;
              var names := PutAll(s.snapshot.countries, CountryKey, after.countries);
              && ListsCountries(report.addedCountries, after.countries, s.snapshot.countries)
              && ListsCountries(report.removedCountries, s.snapshot.countries, after.countries)
              && ListsRegions(report.addedRegions, after.regions, s.snapshot.regions, names)
              && ListsRegions(report.removedRegions, s.snapshot.regions, after.regions, s.snapshot.countries)
              && forall target :: target in report.removedTargets
                   <==> IsKnown(s, target) && !IsTarget(after.countries, after.regions, target)
  {
    hide Prefetched, Retired, StoredAfter, UpdatedSnapshot, Preserved, Sort, PutAll, Without;
    var t := Preserved(found, s.snapshot, found.ambiguous);
    TopologiesWellFormed(s.snapshot, found);
    if CanStore(t.countries, t.regions) {
      ReportedChanges(s.snapshot, t);
      forall target
        ensures target in RemovedTargets(s, t.countries, t.regions)
                <==> IsKnown(s, target) && !IsTarget(t.countries, t.regions, target)
      {
        RemovedTargetsAreNotCurrent(s, t.countries, t.regions, target);
        KnownExactly(s, target);
        HasKeyIsTarget(t.countries, t.regions, target);
      }
    }
  }

  lemma ReportedChanges(previous: Snapshot, t: Topology)
    requires TopologyWellFormed(previous.countries, previous.regions) && TopologyWellFormed(t.countries, t.regions)
    requires CanStore(t.countries, t.regions)
    ensures var merged := MergedProbe(previous, t);
            var added := CollectChanges(previous, merged.countries, merged.regions);
            var removed := CollectChanges(previous, t.countries, t.regions);
            && ListsCountries(added.addedCountries, t.countries, previous.countries)
            && ListsCountries(removed.removedCountries, previous.countries, t.countries)
            && ListsRegions(added.addedRegions, t.regions, previous.regions, merged.countries)
            && ListsRegions(removed.removedRegions, previous.regions, t.regions, previous.countries)
  {
    var merged := MergedProbe(previous, t);
    forall i, j | 0 <= i < j < |t.regions|
      ensures RegionKey(t.regions[i]) != RegionKey(t.regions[j])
    {
      assert RegionId(t.regions[i]) != RegionId(t.regions[j]);
    }
    AdditionsSurviveMerging(previous.countries, CountryKey, t.countries);
    AdditionsSurviveMerging(previous.regions, RegionKey, t.regions);
    MergedRegionsWellFormed(previous.regions, t.regions);
    UrlKeysFilterRegions(merged.regions, previous.regions);
    UrlKeysFilterRegions(t.regions, previous.regions);
    CountriesListed(t.countries, previous.countries);
    CountriesListed(previous.countries, t.countries);
    RegionsListed(t.regions, previous.regions, merged.countries);
    RegionsListed(previous.regions, t.regions, previous.countries);
  }

  /** A probe reports exactly what it adds to the snapshot, and nothing as removed or retired. */
  lemma ProbeReportsExactly(s: State, found: Topology, pages: Pages)
    requires Sound(s) && TopologyWellFormed(found.countries, found.regions)
    ensures Probed(s, found, pages).Success? ==>
              var (after, report) := Probed(s, found, pages).value;
              && ListsCountries(report.addedCountries, after.countries, s.snapshot.countries)
              && ListsRegions(report.addedRegions, after.regions, s.snapshot.regions, after.countries)
              && report.removedCountries == [] && report.removedRegions == []
              && report.removedTargets == {} && report.retired == {}
  {
    hide Prefetched, StoredAfter, UpdatedSnapshot, Preserved, MergedProbe, Sort, Without;
    var t := MergedProbe(s.snapshot, Preserved(found, s.snapshot, found.ambiguous));
    TopologiesWellFormed(s.snapshot, found);
    CountriesListed(t.countries, s.snapshot.countries);
    RegionsListed(t.regions, s.snapshot.regions, t.countries);
  }

  /** What a probe does to the tables: prefetch targets that the snapshot did not have. */
  lemma ProbeParts(s: State, found: Topology, pages: Pages)
    returns (order: seq<Source>, notices: StoredNotices)
    requires Sound(s) && TopologyWellFormed(found.countries, found.regions)
    ensures Probed(s, found, pages).Success? ==>
              var t := Probed(s, found, pages).value.0;
              && t.db == Prefetched(s.db, notices, order, pages).db
              && t.snapshot.countries == t.countries && t.snapshot.regions == t.regions
              && TopologyWellFormed(t.countries, t.regions)
              && forall target :: target in order ==> target !in TaskKeys(s.snapshot.countries, s.snapshot.regions)
  {
    hide Prefetched, CollectChanges, StoredAfter;
    var merged := MergedProbe(s.snapshot, Preserved(found, s.snapshot, found.ambiguous));
    order := AddedOrder(s.snapshot, merged.countries, merged.regions);
    notices := StoredAfter(s.notices, merged);
    TopologiesWellFormed(s.snapshot, found);
    PrefetchedAreNew(s.snapshot, merged.countries, merged.regions);
  }

  /** A probe keeps the state sound, keeps every target of the previous snapshot, and retires
      nothing: configs of those targets stay exactly as active as they were. */
  lemma ProbeOnlyAdds(s: State, found: Topology, pages: Pages, target: Source)
    requires Sound(s) && TopologyWellFormed(found.countries, found.regions) && PagesParsed(pages)
    ensures Probed(s, found, pages).Success? ==>
              var after := Probed(s, found, pages).value.0;
              && Sound(after)
              && (target in TaskKeys(s.snapshot.countries, s.snapshot.regions) ==>
                    && target in TaskKeys(after.countries, after.regions)
                    && ActiveFrom(after.db.configs, target) == ActiveFrom(s.db.configs, target))
  {
    var order, notices := ProbeParts(s, found, pages);
    PrefetchConsistent(s.db, notices, order, pages);
    MergedTargets(s.snapshot, Preserved(found, s.snapshot, found.ambiguous), target);
    if target in TaskKeys(s.snapshot.countries, s.snapshot.regions) {
      TopologyTargetsWellFormed(s.snapshot.countries, s.snapshot.regions, target);
      PrefetchActivates(s.db, notices, order, pages, target);
    }
  }
}
