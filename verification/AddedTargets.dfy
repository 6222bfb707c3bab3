/** The prefetch of added targets covers each of them exactly once. */
module AddedTargets {
  import opened Wrappers
  import opened Sources
  import opened KeyedLists
  import opened Ordering
  import opened CatalogStore
  import opened CatalogLifecycle
  import CatalogRuns
  import opened Topology
  import opened Prefetching
  import opened TopologyRefresh

  // Additions and their order.

  /** Two items share a key only if the key is known. */
  ghost predicate RepeatsOnlyKnown<T, K>(items: seq<T>, key: T -> K, known: seq<T>) {
    forall i, j :: 0 <= i < j < |items| && key(items[i]) == key(items[j]) ==> HasKey(known, key, key(items[i]))
  }

  lemma {:induction false} MergingRepeatsOnlyKnown<T, K>(items: seq<T>, key: T -> K, more: seq<T>)
    ensures RepeatsOnlyKnown(PutAll(items, key, more), key, items)
  {
    if more == [] {
      assert forall i :: 0 <= i < |items| ==> HasKey(items, key, key(items[i]));
    } else {
      var n := |more| - 1;
      var before := PutAll(items, key, more[..n]);
      MergingRepeatsOnlyKnown(items, key, more[..n]);
      PutPositions(before, key, more[n]);
      var r := Put(before, key, more[n]);
      assert |r| > |before| ==> forall i :: 0 <= i < |before| ==> key(r[i]) != key(r[|before|]);
      forall i, j | 0 <= i < j < |before| && key(r[i]) == key(r[j])
        ensures HasKey(items, key, key(r[i]))
      {
        assert key(before[i]) == key(before[j]);
      }
    }
  }

  lemma {:induction false} NewItemsAreDistinct<T, K>(items: seq<T>, key: T -> K, known: seq<T>)
    requires RepeatsOnlyKnown(items, key, known)
    ensures Distinct(Without(items, key, known), key)
  {
    if items != [] {
      var n := |items| - 1;
      var before := Without(items[..n], key, known);
      assert forall i :: 0 <= i < n ==> items[..n][i] == items[i];
      NewItemsAreDistinct(items[..n], key, known);
      forall i | 0 <= i < |before| && !HasKey(known, key, key(items[n]))
        ensures key(before[i]) != key(items[n])
      {
        WithoutMembers(items[..n], key, known, before[i]);
        var k :| 0 <= k < n && items[k] == before[i];
      }
    }
  }

  lemma {:induction false} InsertKeepsDistinct<T, K>(items: seq<T>, before: (T, T) -> bool, key: T -> K, item: T)
    requires Distinct(items, key) && !HasKey(items, key, key(item))
    ensures Distinct(Insert(items, before, item), key)
  {
    if items != [] {
      var n := |items| - 1;
      assert forall i :: 0 <= i < n ==> items[..n][i] == items[i];
      if before(item, items[n]) {
        var front := Insert(items[..n], before, item);
        InsertKeepsDistinct(items[..n], before, key, item);
        forall i | 0 <= i < |front|
          ensures key(front[i]) != key(items[n])
        {
          assert front[i] in multiset(front);
          assert front[i] == item || front[i] in items[..n];
        }
      } else {
        assert forall i :: 0 <= i <= n ==> key(items[i]) != key(item);
      }
    }
  }

  lemma {:induction false} SortKeepsDistinct<T, K>(items: seq<T>, before: (T, T) -> bool, key: T -> K)
    requires Distinct(items, key)
    ensures Distinct(Sort(items, before), key)
  {
    if items != [] {
      var n := |items| - 1;
      var sorted := Sort(items[..n], before);
      SortKeepsDistinct(items[..n], before, key);
      forall i | 0 <= i < |sorted|
        ensures key(sorted[i]) != key(items[n])
      {
        SortMembers(items[..n], before, sorted[i]);
        var k :| 0 <= k < n && items[..n][k] == sorted[i];
      }
      InsertKeepsDistinct(sorted, before, key, items[n]);
    }
  }

  function CountryChangeKey(c: CountryChange): string { c.id }

  function RegionChangeKey(r: RegionChange): (string, string) { (r.countryId, r.regionId) }

  /** The additions of a merge name no country and no region twice. */
  lemma AddedAreDistinct(previous: Snapshot, t: Topology)
    requires TopologyWellFormed(previous.countries, previous.regions)
    requires TopologyWellFormed(MergedProbe(previous, t).countries, MergedProbe(previous, t).regions)
    ensures var merged := MergedProbe(previous, t);
            var changes := CollectChanges(previous, merged.countries, merged.regions);
            Distinct(changes.addedCountries, CountryChangeKey) && Distinct(changes.addedRegions, RegionChangeKey)
  {
    var merged := MergedProbe(previous, t);
    var countries := Without(merged.countries, CountryKey, previous.countries);
    var regions := Without(merged.regions, RegionUrlKey, previous.regions);
    MergingRepeatsOnlyKnown(previous.countries, CountryKey, t.countries);
    NewItemsAreDistinct(merged.countries, CountryKey, previous.countries);
    MergingRepeatsOnlyKnown(previous.regions, RegionKey, t.regions);
    NewItemsAreDistinct(merged.regions, RegionKey, previous.regions);
    UrlKeysFilterRegions(merged.regions, previous.regions);
    CountriesStayDistinct(countries);
    RegionsStayDistinct(regions, merged.countries);
    SortKeepsDistinct(CountryChanges(countries), CountryBefore, CountryChangeKey);
    SortKeepsDistinct(RegionChanges(regions, merged.countries), RegionBefore, RegionChangeKey);
  }

  lemma CountriesStayDistinct(countries: seq<Country>)
    requires Distinct(countries, CountryKey)
    ensures Distinct(CountryChanges(countries), CountryChangeKey)
  {
    forall i, j | 0 <= i < j < |countries|
      ensures CountryChangeKey(CountryChanges(countries)[i]) != CountryChangeKey(CountryChanges(countries)[j])
    {
      assert CountryKey(countries[i]) != CountryKey(countries[j]);
    }
  }

  lemma RegionsStayDistinct(regions: seq<Region>, names: seq<Country>)
    requires Distinct(regions, RegionKey)
    ensures Distinct(RegionChanges(regions, names), RegionChangeKey)
  {
    forall i, j | 0 <= i < j < |regions|
      ensures RegionChangeKey(RegionChanges(regions, names)[i]) != RegionChangeKey(RegionChanges(regions, names)[j])
    {
      assert RegionKey(regions[i]) != RegionKey(regions[j]);
    }
  }

  // Each target once.

  lemma NamedByLast(changes: seq<RegionChange>, target: Source)
    requires changes != []
    ensures var n := |changes| - 1;
            NamesRegion(changes, target)
            <==> NamesRegion(changes[..n], target) || target == Source(changes[n].countryId, Some(changes[n].regionId))
  {
    var n := |changes| - 1;
    assert forall i :: 0 <= i < n ==> changes[..n][i] == changes[i];
    if NamesRegion(changes[..n], target) {
      var i :| 0 <= i < n && target == Source(changes[..n][i].countryId, Some(changes[..n][i].regionId));
      assert target == Source(changes[i].countryId, Some(changes[i].regionId));
    }
  }

  lemma NamedCountryByLast(changes: seq<CountryChange>, id: string)
    requires changes != []
    ensures NamesCountry(changes, id)
            <==> NamesCountry(changes[..|changes| - 1], id) || id == changes[|changes| - 1].id
  {
    var n := |changes| - 1;
    assert forall i :: 0 <= i < n ==> changes[..n][i] == changes[i];
    if NamesCountry(changes[..n], id) {
      var i :| 0 <= i < n && changes[..n][i].id == id;
      assert changes[i].id == id;
    }
  }

  lemma {:induction false} RegionsOfChangeOnce(changes: seq<RegionChange>, country: string, target: Source)
    requires Distinct(changes, RegionChangeKey)
    ensures multiset(RegionsOfChange(changes, country))[target]
            == if NamesRegion(changes, target) && target.fid == country then 1 else 0
  {
    if changes != [] {
      var n := |changes| - 1;
      assert forall i :: 0 <= i < n ==> changes[..n][i] == changes[i];
      RegionsOfChangeOnce(changes[..n], country, target);
      NamedByLast(changes, target);
      if NamesRegion(changes[..n], target) {
        var i :| 0 <= i < n && target == Source(changes[i].countryId, Some(changes[i].regionId));
        assert RegionChangeKey(changes[i]) != RegionChangeKey(changes[n]);
      }
    }
  }

  lemma {:induction false} CountryOrderOnce(countries: seq<CountryChange>, regions: seq<RegionChange>, target: Source)
    requires Distinct(countries, CountryChangeKey) && Distinct(regions, RegionChangeKey)
    ensures multiset(CountryOrder(countries, regions))[target]
            == if NamesCountry(countries, target.fid) && (target.gid.Some? ==> NamesRegion(regions, target))
               then 1 else 0
  {
    if countries != [] {
      var n := |countries| - 1;
      assert forall i :: 0 <= i < n ==> countries[..n][i] == countries[i];
      CountryOrderOnce(countries[..n], regions, target);
      NamedCountryByLast(countries, target.fid);
      RegionsOfChangeOnce(regions, countries[n].id, target);
      if NamesCountry(countries[..n], target.fid) {
        var i :| 0 <= i < n && countries[i].id == target.fid;
        assert CountryChangeKey(countries[i]) != CountryChangeKey(countries[n]);
      }
      if target.gid.None? {
        assert !NamesRegion(regions, target);
      }
    }
  }

  lemma {:induction false} OtherRegionsOnce(countries: seq<CountryChange>, regions: seq<RegionChange>, target: Source)
    ensures multiset(OtherRegions(countries, regions))[target]
            == if NamesRegion(regions, target) && !NamesCountry(countries, target.fid) then 1 else 0
  {
    if regions != [] {
      var n := |regions| - 1;
      OtherRegionsOnce(countries, regions[..n], target);
      NamedByLast(regions, target);
      var before := OtherRegions(countries, regions[..n]);
      assert target in before <==> multiset(before)[target] > 0;
    }
  }

  /** How often a target is prefetched after a merge: once if it is new, and otherwise never. */
  lemma AddedOnce(previous: Snapshot, t: Topology, target: Source)
    requires TopologyWellFormed(previous.countries, previous.regions)
    requires TopologyWellFormed(MergedProbe(previous, t).countries, MergedProbe(previous, t).regions)
    ensures var merged := MergedProbe(previous, t);
            multiset(AddedOrder(previous, merged.countries, merged.regions))[target]
            == if target in TaskKeys(merged.countries, merged.regions)
                  && target !in TaskKeys(previous.countries, previous.regions)
               then 1 else 0
  {
    hide PutAll, CollectChanges, CountryOrder, OtherRegions;
    var merged := MergedProbe(previous, t);
    var added := CollectChanges(previous, merged.countries, merged.regions);
    AddedAreDistinct(previous, t);
    CountryOrderOnce(added.addedCountries, added.addedRegions, target);
    OtherRegionsOnce(added.addedCountries, added.addedRegions, target);
    ChangesAreExact(previous, merged.countries, merged.regions, target.fid, target);
    HasKeyIsTarget(merged.countries, merged.regions, target);
    HasKeyIsTarget(previous.countries, previous.regions, target);
    if target.gid.None? {
      assert !NamesRegion(added.addedRegions, target);
    }
  }

  /** The regions of a country come before the country page. */
  predicate RegionsFirst(order: seq<Source>) {
    forall i, j :: 0 <= i < |order| && 0 <= j < |order| && IsRegionOf(order[i], order[j]) ==> i < j
  }

  predicate IsRegionOf(region: Source, country: Source) {
    region.fid == country.fid && region.gid.Some? && country.gid.None?
  }

  lemma {:induction false} CountryOrderRegionsFirst(countries: seq<CountryChange>, regions: seq<RegionChange>)
    requires Distinct(countries, CountryChangeKey)
    ensures RegionsFirst(CountryOrder(countries, regions))
  {
    if countries != [] {
      var n := |countries| - 1;
      var before, own := CountryOrder(countries[..n], regions), RegionsOfChange(regions, countries[n].id);
      var order := CountryOrder(countries, regions);
      assert forall i :: 0 <= i < n ==> countries[..n][i] == countries[i];
      CountryOrderRegionsFirst(countries[..n], regions);
      forall i | |before| <= i < |before| + |own|
        ensures order[i].gid.Some? && order[i].fid == countries[n].id
      {
        assert order[i] == own[i - |before|] && order[i] in own;
      }
      forall i, j | 0 <= i < |order| && 0 <= j < |before| && IsRegionOf(order[i], order[j])
        ensures i < j
      {
        assert order[j] in before;
        var k :| 0 <= k < n && countries[..n][k].id == order[j].fid;
        assert CountryChangeKey(countries[k]) != CountryChangeKey(countries[n]);
        assert i < |before| && before[i] == order[i] && before[j] == order[j];
      }
    }
  }

  /** A country page is prefetched after all added regions of its country, which it must not repeat. */
  lemma RegionsComeFirst(previous: Snapshot, t: Topology)
    requires TopologyWellFormed(previous.countries, previous.regions)
    requires TopologyWellFormed(MergedProbe(previous, t).countries, MergedProbe(previous, t).regions)
    ensures var merged := MergedProbe(previous, t);
            RegionsFirst(AddedOrder(previous, merged.countries, merged.regions))
  {
    hide PutAll, CollectChanges, CountryOrder, OtherRegions;
    var merged := MergedProbe(previous, t);
    var added := CollectChanges(previous, merged.countries, merged.regions);
    var first, others := CountryOrder(added.addedCountries, added.addedRegions),
      OtherRegions(added.addedCountries, added.addedRegions);
    AddedAreDistinct(previous, t);
    CountryOrderRegionsFirst(added.addedCountries, added.addedRegions);
    var order := first + others;
    forall i | |first| <= i < |order|
      ensures order[i].gid.Some? && !NamesCountry(added.addedCountries, order[i].fid)
    {
      assert order[i] in others;
      OtherRegionsOnce(added.addedCountries, added.addedRegions, order[i]);
    }
    forall i, j | 0 <= i < |order| && 0 <= j < |first| && IsRegionOf(order[i], order[j])
      ensures i < j
    {
      assert order[j] in first;
      assert first[j] == order[j] && first[i] == order[i];
    }
  }

  // What the prefetch of one target leaves.

  lemma CountOfLast(order: seq<Source>, target: Source)
    requires order != []
    ensures var n := |order| - 1;
            multiset(order)[target] == multiset(order[..n])[target] + (if order[n] == target then 1 else 0)
  {
    assert order == order[..|order| - 1] + [order[|order| - 1]];
  }

  function TextAt(notices: StoredNotices, target: Source): Option<string> {
    if UrlKey(target) in notices then Some(notices[UrlKey(target)]) else None
  }

  /** The page of another target changes nothing for a target. */
  lemma AdvanceLeavesOthers(p: Progress, other: Source, pages: Pages, target: Source)
    requires WellFormed(other) && WellFormed(target) && other != target
    ensures var next := Advance(p, other, pages);
            (UrlKey(target) in next.failed <==> UrlKey(target) in p.failed)
            && TextAt(next.notices, target) == TextAt(p.notices, target)
  {
    hide Fails, CatalogRuns.Step, PageOp, UrlKey;
    if UrlKey(other) == UrlKey(target) {
      UrlKeyIsInjective(other, target);
    }
  }

  /** Its own page fails, or stores its notice. */
  lemma AdvanceStoresTheNotice(p: Progress, pages: Pages, target: Source)
    ensures var next := Advance(p, target, pages);
            if Fails(p, target, pages)
            then UrlKey(target) in next.failed && TextAt(next.notices, target) == TextAt(p.notices, target)
            else next.failed == p.failed && target in pages && TextAt(next.notices, target) == pages[target].notice
  {
    hide CatalogRuns.Step, PageOp, UrlKey;
  }

  /** A target without a place in the order is not reported, and its stored notice stays. */
  lemma {:induction false} NotPrefetched(
    db: Db, notices: StoredNotices, order: seq<Source>, pages: Pages, target: Source)
    requires WellFormed(target) && multiset(order)[target] == 0
    requires forall other :: other in order ==> WellFormed(other)
    ensures var p := Prefetched(db, notices, order, pages);
            && UrlKey(target) !in p.failed
            && TextAt(p.notices, target) == TextAt(notices, target)
  {
    hide Advance, TextAt, UrlKey;
    if order != [] {
      var n := |order| - 1;
      CountOfLast(order, target);
      assert order[n] in order && forall other :: other in order[..n] ==> other in order;
      NotPrefetched(db, notices, order[..n], pages, target);
      AdvanceLeavesOthers(Prefetched(db, notices, order[..n], pages), order[n], pages, target);
    }
  }

  /** A target that is prefetched once is reported as failed and keeps its stored notice, or stores the
      notice of its page. */
  lemma {:induction false} PrefetchedNotice(
    db: Db, notices: StoredNotices, order: seq<Source>, pages: Pages, target: Source)
    requires WellFormed(target) && multiset(order)[target] == 1
    requires forall other :: other in order ==> WellFormed(other)
    ensures var p := Prefetched(db, notices, order, pages);
            if UrlKey(target) in p.failed then TextAt(p.notices, target) == TextAt(notices, target)
            else target in pages && TextAt(p.notices, target) == pages[target].notice
  {
    hide Advance, TextAt, UrlKey, Fails;
    var n := |order| - 1;
    var before := Prefetched(db, notices, order[..n], pages);
    CountOfLast(order, target);
    assert order[n] in order && forall other :: other in order[..n] ==> other in order;
    if order[n] == target {
      NotPrefetched(db, notices, order[..n], pages, target);
      AdvanceStoresTheNotice(before, pages, target);
    } else {
      PrefetchedNotice(db, notices, order[..n], pages, target);
      AdvanceLeavesOthers(before, order[n], pages, target);
    }
  }

  /** An authoritative page never fails. */
  lemma {:induction false} AuthoritativePagesApply(
    db: Db, notices: StoredNotices, order: seq<Source>, pages: Pages, target: Source)
    requires WellFormed(target) && target in pages && pages[target].authoritative
    requires forall other :: other in order ==> WellFormed(other)
    ensures UrlKey(target) !in Prefetched(db, notices, order, pages).failed
  {
    if order != [] {
      var n := |order| - 1;
      assert order[n] in order && forall other :: other in order[..n] ==> other in order;
      AuthoritativePagesApply(db, notices, order[..n], pages, target);
      if order[n] == target {
        AdvanceStoresTheNotice(Prefetched(db, notices, order[..n], pages), pages, target);
      } else {
        AdvanceLeavesOthers(Prefetched(db, notices, order[..n], pages), order[n], pages, target);
      }
    }
  }
}
