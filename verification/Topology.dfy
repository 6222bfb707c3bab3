/** Countries and regions: merging a probe, preserving ambiguous countries, and the differences
    that are notified. */
module Topology {
  import opened Wrappers
  import opened Sources
  import opened KeyedLists
  import opened Ordering

  datatype Country = Country(id: string, name: string)

  datatype Region = Region(countryId: string, id: string, name: string, locationName: Option<string>)

  datatype Notice = Notice(countryId: string, regionId: Option<string>, text: string)

  /** What the running program holds in memory. */
  datatype Snapshot = Snapshot(countries: seq<Country>, regions: seq<Region>, notices: seq<Notice>,
      initializedKeys: set<string>)

  /** What one crawl of the upstream pages found. The ambiguous countries are listed in the order
      in which the set of them is iterated. */
  datatype Topology = Topology(
    countries: seq<Country>,
    regions: seq<Region>,
    notices: seq<Notice>,
    initializedKeys: set<string>,
    ambiguous: seq<string>)

  function CountryKey(c: Country): string { c.id }
  function RegionKey(r: Region): (string, string) { (r.countryId, r.id) }
  function NoticeKey(n: Notice): (string, Option<string>) { (n.countryId, n.regionId) }

  function RegionSource(r: Region): Source { Source(r.countryId, Some(r.id)) }
  function RegionUrlKey(r: Region): string { UrlKey(RegionSource(r)) }
  function NoticeUrlKey(n: Notice): string { UrlKey(Source(n.countryId, n.regionId)) }

  // Merging a probe into the snapshot.

  function MergedProbe(previous: Snapshot, probe: Topology): Topology {
    Topology(
      PutAll(previous.countries, CountryKey, probe.countries),
      PutAll(previous.regions, RegionKey, probe.regions),
      PutAll(previous.notices, NoticeKey, probe.notices),
      previous.initializedKeys + probe.initializedKeys,
      probe.ambiguous)
  }

  method MergeTopologyProbeResult(previous: Snapshot, topology: Topology) returns (merged: Topology)
    ensures merged == MergedProbe(previous, topology)
  {
    var countries := previous.countries;
    for i := 0 to |topology.countries|
      invariant countries == PutAll(previous.countries, CountryKey, topology.countries[..i])
    {
      assert topology.countries[..i + 1][..i] == topology.countries[..i];
      var index := IndexOf(countries, CountryKey, topology.countries[i].id);
      if index < |countries| {
        countries := countries[index := topology.countries[i]];
      } else {
        countries := countries + [topology.countries[i]];
      }
    }
    assert topology.countries[..|topology.countries|] == topology.countries;

    var regions := previous.regions;
    for i := 0 to |topology.regions|
      invariant regions == PutAll(previous.regions, RegionKey, topology.regions[..i])
    {
      assert topology.regions[..i + 1][..i] == topology.regions[..i];
      var index := IndexOf(regions, RegionKey, (topology.regions[i].countryId, topology.regions[i].id));
      if index < |regions| {
        regions := regions[index := topology.regions[i]];
      } else {
        regions := regions + [topology.regions[i]];
      }
    }
    assert topology.regions[..|topology.regions|] == topology.regions;

    var notices := previous.notices;
    for i := 0 to |topology.notices|
      invariant notices == PutAll(previous.notices, NoticeKey, topology.notices[..i])
    {
      assert topology.notices[..i + 1][..i] == topology.notices[..i];
      var index := IndexOf(notices, NoticeKey, (topology.notices[i].countryId, topology.notices[i].regionId));
      if index < |notices| {
        notices := notices[index := topology.notices[i]];
      } else {
        notices := notices + [topology.notices[i]];
      }
    }
    assert topology.notices[..|topology.notices|] == topology.notices;

    merged := Topology(countries, regions, notices, previous.initializedKeys + topology.initializedKeys,
      topology.ambiguous);
  }

  /** The merge is a keyed union: it keeps every key, adds every probed key, lets the probe win,
      keeps keys distinct, and merging the same probe again changes nothing. */
  lemma MergeIsAKeyedUnion(previous: Snapshot, probe: Topology, country: string, region: (string, string))
    ensures var merged := MergedProbe(previous, probe);
            && (HasKey(merged.countries, CountryKey, country)
                <==> HasKey(previous.countries, CountryKey, country) || HasKey(probe.countries, CountryKey, country))
            && (HasKey(merged.regions, RegionKey, region)
                <==> HasKey(previous.regions, RegionKey, region) || HasKey(probe.regions, RegionKey, region))
            && Lookup(merged.countries, CountryKey, country)
               == (if HasKey(probe.countries, CountryKey, country)
                  then Some(LastOf(probe.countries, CountryKey, country))
                   else Lookup(previous.countries, CountryKey, country))
            && Lookup(merged.regions, RegionKey, region)
               == (if HasKey(probe.regions, RegionKey, region) then Some(LastOf(probe.regions, RegionKey, region))
                   else Lookup(previous.regions, RegionKey, region))
    ensures Distinct(previous.countries, CountryKey) ==> Distinct(MergedProbe(previous, probe).countries, CountryKey)
    ensures Distinct(previous.regions, RegionKey) ==> Distinct(MergedProbe(previous, probe).regions, RegionKey)
    ensures var merged := MergedProbe(previous, probe);
            MergedProbe(Snapshot(merged.countries, merged.regions, merged.notices, merged.initializedKeys), probe)
              == merged
  {
    PutAllKeys(previous.countries, CountryKey, probe.countries, country);
    PutAllKeys(previous.regions, RegionKey, probe.regions, region);
    PutAllLookup(previous.countries, CountryKey, probe.countries, country);
    PutAllLookup(previous.regions, RegionKey, probe.regions, region);
    if Distinct(previous.countries, CountryKey) {
      PutAllDistinct(previous.countries, CountryKey, probe.countries);
    }
    if Distinct(previous.regions, RegionKey) {
      PutAllDistinct(previous.regions, RegionKey, probe.regions);
    }
    PutAllIsIdempotent(previous.countries, CountryKey, probe.countries);
    PutAllIsIdempotent(previous.regions, RegionKey, probe.regions);
    PutAllIsIdempotent(previous.notices, NoticeKey, probe.notices);
  }

  // Preserving the regions of ambiguous countries.

  function RegionsOf(regions: seq<Region>, country: string): (r: seq<Region>)
    ensures forall region :: region in r <==> region in regions && region.countryId == country
  {
    if regions == [] then []
    else
      var n := |regions| - 1;
      assert regions == regions[..n] + [regions[n]];
      RegionsOf(regions[..n], country) + (if regions[n].countryId == country then [regions[n]] else [])
  }

  function PreservedUrlKeys(country: string, regions: seq<Region>): set<string> {
    {UrlKey(Source(country, None))} + set region | region in regions :: RegionUrlKey(region)
  }

  function NoticesOf(notices: seq<Notice>, country: string, keys: set<string>): seq<Notice> {
    if notices == [] then []
    else
      var n := |notices| - 1;
      NoticesOf(notices[..n], country, keys)
      + (if notices[n].countryId == country && NoticeUrlKey(notices[n]) in keys then [notices[n]] else [])
  }

  function PreservedOne(topology: Topology, previous: Snapshot, country: string): Topology {
    var regions := RegionsOf(previous.regions, country);
    if regions == [] then topology
    else
      var keys := PreservedUrlKeys(country, regions);
      topology.(regions := PushMissing(topology.regions, RegionKey, regions),
                initializedKeys := topology.initializedKeys + (previous.initializedKeys * keys),
                notices := PushMissing(topology.notices, NoticeKey, NoticesOf(previous.notices, country, keys)))
  }

  function Preserved(topology: Topology, previous: Snapshot, countries: seq<string>): Topology {
    if countries == [] then topology
    else
      var n := |countries| - 1;
      PreservedOne(Preserved(topology, previous, countries[..n]), previous, countries[n])
  }

  function WithRegions(previous: Snapshot, countries: seq<string>): seq<string> {
    if countries == [] then []
    else
      var n := |countries| - 1;
      WithRegions(previous, countries[..n])
        + (if RegionsOf(previous.regions, countries[n]) == [] then [] else [countries[n]])
  }

  method PushPreviousRegions(found: seq<Region>, previousRegions: seq<Region>, country: string)
    returns (regions: seq<Region>, keys: set<string>)
    ensures regions == PushMissing(found, RegionKey, previousRegions)
    ensures keys == PreservedUrlKeys(country, previousRegions)
  {
    regions, keys := found, {UrlKey(Source(country, None))};
    for k := 0 to |previousRegions|
      invariant regions == PushMissing(found, RegionKey, previousRegions[..k])
      invariant keys == PreservedUrlKeys(country, previousRegions[..k])
    {
      var region := previousRegions[k];
      assert previousRegions[..k + 1] == previousRegions[..k] + [region];
      keys := keys + {RegionUrlKey(region)};
      if !HasKey(regions, RegionKey, RegionKey(region)) {
        regions := regions + [region];
      }
    }
    assert previousRegions[..|previousRegions|] == previousRegions;
  }

  lemma NextCountry(topology: Topology, previous: Snapshot, countries: seq<string>, i: nat)
    requires i < |countries|
    ensures Preserved(topology, previous, countries[..i + 1])
            == PreservedOne(Preserved(topology, previous, countries[..i]), previous, countries[i])
    ensures WithRegions(previous, countries[..i + 1])
            == WithRegions(previous, countries[..i])
               + (if RegionsOf(previous.regions, countries[i]) == [] then [] else [countries[i]])
  {
    assert countries[..i + 1][..i] == countries[..i];
  }

  method PreserveCountryRegions(topology: Topology, previous: Snapshot, country: string)
    returns (result: Topology, preserved: bool)
    ensures result == PreservedOne(topology, previous, country)
    ensures preserved <==> RegionsOf(previous.regions, country) != []
  {
    var previousRegions := RegionsOf(previous.regions, country);
    if previousRegions == [] {
      return topology, false;
    }
    var regions, keys := PushPreviousRegions(topology.regions, previousRegions, country);
    result := topology.(regions := regions,
                        initializedKeys := topology.initializedKeys + (previous.initializedKeys * keys),
                        notices := PushMissing(topology.notices, NoticeKey,
                          NoticesOf(previous.notices, country, keys)));
    preserved := true;
  }

  /** Gives the ambiguous countries back the regions, notices and notice state that the previous
      snapshot holds for them. */
  method PreserveAmbiguousCountryRegions(topology: Topology, previous: Snapshot)
    returns (result: Topology, preservedCountries: seq<string>)
    ensures result == Preserved(topology, previous, topology.ambiguous)
    ensures preservedCountries == WithRegions(previous, topology.ambiguous)
  {
    result, preservedCountries := topology, [];
    for i := 0 to |topology.ambiguous|
      invariant result == Preserved(topology, previous, topology.ambiguous[..i])
      invariant preservedCountries == WithRegions(previous, topology.ambiguous[..i])
    {
      var country := topology.ambiguous[i];
      var preserved;
      NextCountry(topology, previous, topology.ambiguous, i);
      result, preserved := PreserveCountryRegions(result, previous, country);
      if preserved {
        preservedCountries := preservedCountries + [country];
      }
    }
    assert topology.ambiguous[..|topology.ambiguous|] == topology.ambiguous;
  }

  lemma PreservedOneKeys(topology: Topology, previous: Snapshot, country: string, key: (string, string))
    ensures var t := PreservedOne(topology, previous, country);
            && t.countries == topology.countries
            && topology.regions <= t.regions
            && (HasKey(t.regions, RegionKey, key)
                <==> HasKey(topology.regions, RegionKey, key)
                     || (key.0 == country && HasKey(previous.regions, RegionKey, key)))
  {
    var regions := RegionsOf(previous.regions, country);
    PushMissingKeys(topology.regions, RegionKey, regions, key);
    CountryRegionKeys(previous.regions, country, key);
  }

  /** Exactly the previous regions of the given countries come back; nothing found is dropped. */
  lemma {:induction false} PreservedRegionKeys(topology: Topology, previous: Snapshot, countries: seq<string>,
      key: (string, string))
    ensures var t := Preserved(topology, previous, countries);
            && t.countries == topology.countries
            && topology.regions <= t.regions
            && (HasKey(t.regions, RegionKey, key)
                <==> HasKey(topology.regions, RegionKey, key)
                     || (key.0 in countries && HasKey(previous.regions, RegionKey, key)))
  {
    if countries != [] {
      var n := |countries| - 1;
      PreservedRegionKeys(topology, previous, countries[..n], key);
      PreservedOneKeys(Preserved(topology, previous, countries[..n]), previous, countries[n], key);
      assert countries == countries[..n] + [countries[n]];
    }
  }

  lemma {:induction false} PreservedDistinct(topology: Topology, previous: Snapshot, countries: seq<string>)
    requires Distinct(topology.regions, RegionKey)
    ensures Distinct(Preserved(topology, previous, countries).regions, RegionKey)
  {
    if countries != [] {
      var n := |countries| - 1;
      PreservedDistinct(topology, previous, countries[..n]);
      PushMissingDistinct(Preserved(topology, previous, countries[..n]).regions, RegionKey,
        RegionsOf(previous.regions, countries[n]));
    }
  }

  lemma CountryRegionKeys(regions: seq<Region>, country: string, key: (string, string))
    ensures HasKey(RegionsOf(regions, country), RegionKey, key) <==> key.0 == country && HasKey(regions, RegionKey, key)
  {
    var own := RegionsOf(regions, country);
    if HasKey(own, RegionKey, key) {
      var i :| 0 <= i < |own| && RegionKey(own[i]) == key;
      assert own[i] in regions;
    }
    if key.0 == country && HasKey(regions, RegionKey, key) {
      var i :| 0 <= i < |regions| && RegionKey(regions[i]) == key;
      assert regions[i] in own;
    }
  }

  // Differences.

  datatype CountryChange = CountryChange(id: string, name: string)

  datatype RegionChange = RegionChange(countryId: string, countryName: string, regionId: string, regionName: string)

  datatype Changes = Changes(
    addedCountries: seq<CountryChange>,
    removedCountries: seq<CountryChange>,
    addedRegions: seq<RegionChange>,
    removedRegions: seq<RegionChange>)

  predicate CountryBefore(a: CountryChange, b: CountryChange) { Less(a.id, b.id) }

  predicate RegionBefore(a: RegionChange, b: RegionChange) {
    Less(a.countryId, b.countryId) || (a.countryId == b.countryId && Less(a.regionId, b.regionId))
  }

  function CountryName(countries: seq<Country>, id: string): string {
    if HasKey(countries, CountryKey, id) then LastOf(countries, CountryKey, id).name else id
  }

  /** A change names its country as the last listed country of that id, and a country that is not
      listed by its id. */
  lemma {:induction false} CountryNamesAreListed(countries: seq<Country>, id: string, i: nat)
    ensures (forall country :: country in countries ==> country.id != id) ==> CountryName(countries, id) == id
    ensures i < |countries| && countries[i].id == id && (forall j :: i < j < |countries| ==> countries[j].id != id) ==>
              CountryName(countries, id) == countries[i].name
  {
    if i < |countries| && countries[i].id == id && forall j :: i < j < |countries| ==> countries[j].id != id {
      var n := |countries| - 1;
      assert HasKey(countries, CountryKey, id);
      if i < n {
        CountryNamesAreListed(countries[..n], id, i);
        assert countries[..n][i] == countries[i];
        assert HasKey(countries[..n], CountryKey, id);
      }
    }
  }

  function CountryChanges(countries: seq<Country>): (r: seq<CountryChange>)
    ensures |r| == |countries|
    ensures forall i :: 0 <= i < |r| ==> r[i] == CountryChange(countries[i].id, countries[i].name)
  {
    seq(|countries|, i requires 0 <= i < |countries| => CountryChange(countries[i].id, countries[i].name))
  }

  function RegionChanges(regions: seq<Region>, names: seq<Country>): (r: seq<RegionChange>)
    ensures |r| == |regions|
    ensures forall i :: 0 <= i < |r| ==>
              r[i] == RegionChange(regions[i].countryId, CountryName(names, regions[i].countryId), regions[i].id,
                regions[i].name)
  {
    seq(|regions|, i requires 0 <= i < |regions| =>
      RegionChange(regions[i].countryId, CountryName(names, regions[i].countryId), regions[i].id, regions[i].name))
  }

  function CollectChanges(previous: Snapshot, nextCountries: seq<Country>, nextRegions: seq<Region>): Changes {
    Changes(
      Sort(CountryChanges(Without(nextCountries, CountryKey, previous.countries)), CountryBefore),
      Sort(CountryChanges(Without(previous.countries, CountryKey, nextCountries)), CountryBefore),
      Sort(RegionChanges(Without(nextRegions, RegionUrlKey, previous.regions), nextCountries), RegionBefore),
      Sort(RegionChanges(Without(previous.regions, RegionUrlKey, nextRegions), previous.countries), RegionBefore))
  }

  predicate NamesCountry(changes: seq<CountryChange>, id: string) {
    exists i :: 0 <= i < |changes| && changes[i].id == id
  }

  predicate NamesRegion(changes: seq<RegionChange>, source: Source) {
    exists i :: 0 <= i < |changes| && source == Source(changes[i].countryId, Some(changes[i].regionId))
  }

  lemma SortedCountryChanges(countries: seq<Country>, known: seq<Country>, id: string)
    ensures NamesCountry(Sort(CountryChanges(Without(countries, CountryKey, known)), CountryBefore), id)
            <==> HasKey(countries, CountryKey, id) && !HasKey(known, CountryKey, id)
  {
    var added := Without(countries, CountryKey, known);
    var changes := CountryChanges(added);
    var sorted := Sort(changes, CountryBefore);
    if NamesCountry(sorted, id) {
      var i :| 0 <= i < |sorted| && sorted[i].id == id;
      SortMembers(changes, CountryBefore, sorted[i]);
      var k :| 0 <= k < |changes| && changes[k] == sorted[i];
      WithoutMembers(countries, CountryKey, known, added[k]);
      var j :| 0 <= j < |countries| && countries[j] == added[k];
      assert CountryKey(countries[j]) == id;
    }
    if HasKey(countries, CountryKey, id) && !HasKey(known, CountryKey, id) {
      var i :| 0 <= i < |countries| && CountryKey(countries[i]) == id;
      WithoutMembers(countries, CountryKey, known, countries[i]);
      var k :| 0 <= k < |added| && added[k] == countries[i];
      SortMembers(changes, CountryBefore, changes[k]);
      var j :| 0 <= j < |sorted| && sorted[j] == changes[k];
    }
  }

  predicate TopologyWellFormed(countries: seq<Country>, regions: seq<Region>) {
    && (forall i :: 0 <= i < |countries| ==> WellFormed(Source(countries[i].id, None)))
    && (forall i :: 0 <= i < |regions| ==> WellFormed(RegionSource(regions[i])))
  }

  predicate HasRegion(regions: seq<Region>, source: Source) {
    source.gid.Some? && HasKey(regions, RegionKey, (source.fid, source.gid.value))
  }

  /** On well-formed regions, comparing url keys is comparing regions. */
  lemma UrlKeyFindsRegion(regions: seq<Region>, region: Region)
    requires WellFormed(RegionSource(region))
    requires forall i :: 0 <= i < |regions| ==> WellFormed(RegionSource(regions[i]))
    ensures HasKey(regions, RegionUrlKey, RegionUrlKey(region)) <==> HasRegion(regions, RegionSource(region))
  {
    if HasKey(regions, RegionUrlKey, RegionUrlKey(region)) {
      var i :| 0 <= i < |regions| && RegionUrlKey(regions[i]) == RegionUrlKey(region);
      UrlKeyIsInjective(RegionSource(regions[i]), RegionSource(region));
      assert RegionKey(regions[i]) == RegionKey(region);
    }
    if HasRegion(regions, RegionSource(region)) {
      var i :| 0 <= i < |regions| && RegionKey(regions[i]) == RegionKey(region);
      assert RegionUrlKey(regions[i]) == RegionUrlKey(region);
    }
  }

  lemma SortedRegionChanges(regions: seq<Region>, known: seq<Region>, names: seq<Country>, source: Source)
    requires forall i :: 0 <= i < |regions| ==> WellFormed(RegionSource(regions[i]))
    requires forall i :: 0 <= i < |known| ==> WellFormed(RegionSource(known[i]))
    ensures NamesRegion(Sort(RegionChanges(Without(regions, RegionUrlKey, known), names), RegionBefore), source)
            <==> HasRegion(regions, source) && !HasRegion(known, source)
  {
    var added := Without(regions, RegionUrlKey, known);
    var changes := RegionChanges(added, names);
    var sorted := Sort(changes, RegionBefore);
    if NamesRegion(sorted, source) {
      var i :| 0 <= i < |sorted| && source == Source(sorted[i].countryId, Some(sorted[i].regionId));
      SortMembers(changes, RegionBefore, sorted[i]);
      var k :| 0 <= k < |changes| && changes[k] == sorted[i];
      WithoutMembers(regions, RegionUrlKey, known, added[k]);
      var j :| 0 <= j < |regions| && regions[j] == added[k];
      UrlKeyFindsRegion(known, regions[j]);
      assert RegionKey(regions[j]) == (source.fid, source.gid.value);
    }
    if HasRegion(regions, source) && !HasRegion(known, source) {
      var i :| 0 <= i < |regions| && RegionKey(regions[i]) == (source.fid, source.gid.value);
      UrlKeyFindsRegion(known, regions[i]);
      WithoutMembers(regions, RegionUrlKey, known, regions[i]);
      var k :| 0 <= k < |added| && added[k] == regions[i];
      SortMembers(changes, RegionBefore, changes[k]);
      var j :| 0 <= j < |sorted| && sorted[j] == changes[k];
    }
  }

  /** The notified differences are exact: what is added was not there and is, what is removed was
      there and is not. So the previous keys without the removed, with the added, are the next. */
  lemma ChangesAreExact(previous: Snapshot, countries: seq<Country>, regions: seq<Region>, country: string,
      source: Source)
    requires TopologyWellFormed(previous.countries, previous.regions) && TopologyWellFormed(countries, regions)
    ensures var changes := CollectChanges(previous, countries, regions);
            var was, now := HasKey(previous.countries, CountryKey, country), HasKey(countries, CountryKey, country);
            && (NamesCountry(changes.addedCountries, country) <==> now && !was)
            && (NamesCountry(changes.removedCountries, country) <==> was && !now)
    ensures var changes := CollectChanges(previous, countries, regions);
            var was, now := HasRegion(previous.regions, source), HasRegion(regions, source);
            && (NamesRegion(changes.addedRegions, source) <==> now && !was)
            && (NamesRegion(changes.removedRegions, source) <==> was && !now)
  {
    SortedCountryChanges(countries, previous.countries, country);
    SortedCountryChanges(previous.countries, countries, country);
    SortedRegionChanges(regions, previous.regions, countries, source);
    SortedRegionChanges(previous.regions, regions, previous.countries, source);
  }

  lemma OrdersAreStrict()
    ensures StrictWeak(CountryBefore) && StrictWeak(RegionBefore)
  {
    forall a, b
      ensures !(Less(a, b) && Less(b, a)) && (Less(a, b) || Less(b, a) || a == b) && (a == b ==> !Less(a, b))
    {
      LessIsStrict(a, b);
    }
    forall a, b, c | Less(a, b) && Less(b, c)
      ensures Less(a, c)
    {
      LessIsTransitive(a, b, c);
    }
  }

  /** Countries come out by id. */
  ghost predicate CountriesInOrder(changes: seq<CountryChange>) {
    forall i, j :: 0 <= i < j < |changes| ==> changes[i].id == changes[j].id || Less(changes[i].id, changes[j].id)
  }

  /** Regions come out by country and then by id. */
  ghost predicate RegionsInOrder(changes: seq<RegionChange>) {
    forall i, j :: 0 <= i < j < |changes| ==>
      if changes[i].countryId == changes[j].countryId
      then changes[i].regionId == changes[j].regionId || Less(changes[i].regionId, changes[j].regionId)
      else Less(changes[i].countryId, changes[j].countryId)
  }

  lemma SortedCountriesAreInOrder(changes: seq<CountryChange>)
    requires SortedBy(changes, CountryBefore)
    ensures CountriesInOrder(changes)
  {
    forall i, j | 0 <= i < j < |changes|
      ensures changes[i].id == changes[j].id || Less(changes[i].id, changes[j].id)
    {
      assert !CountryBefore(changes[j], changes[i]);
      LessIsStrict(changes[i].id, changes[j].id);
    }
  }

  lemma SortedRegionsAreInOrder(changes: seq<RegionChange>)
    requires SortedBy(changes, RegionBefore)
    ensures RegionsInOrder(changes)
  {
    forall i, j | 0 <= i < j < |changes|
      ensures if changes[i].countryId == changes[j].countryId
              then changes[i].regionId == changes[j].regionId || Less(changes[i].regionId, changes[j].regionId)
              else Less(changes[i].countryId, changes[j].countryId)
    {
      assert !RegionBefore(changes[j], changes[i]);
      LessIsStrict(changes[i].countryId, changes[j].countryId);
      LessIsStrict(changes[i].regionId, changes[j].regionId);
    }
  }

  /** The four lists come out in id order. */
  lemma ChangesAreSorted(previous: Snapshot, countries: seq<Country>, regions: seq<Region>)
    ensures var changes := CollectChanges(previous, countries, regions);
            && CountriesInOrder(changes.addedCountries) && CountriesInOrder(changes.removedCountries)
            && RegionsInOrder(changes.addedRegions) && RegionsInOrder(changes.removedRegions)
  {
    var changes := CollectChanges(previous, countries, regions);
    OrdersAreStrict();
    SortSorted(CountryChanges(Without(countries, CountryKey, previous.countries)), CountryBefore);
    SortSorted(CountryChanges(Without(previous.countries, CountryKey, countries)), CountryBefore);
    SortSorted(RegionChanges(Without(regions, RegionUrlKey, previous.regions), countries), RegionBefore);
    SortSorted(RegionChanges(Without(previous.regions, RegionUrlKey, regions), previous.countries), RegionBefore);
    SortedCountriesAreInOrder(changes.addedCountries);
    SortedCountriesAreInOrder(changes.removedCountries);
    SortedRegionsAreInOrder(changes.addedRegions);
    SortedRegionsAreInOrder(changes.removedRegions);
  }

  lemma {:induction false} UrlKeysFilterRegions(regions: seq<Region>, known: seq<Region>)
    requires forall i :: 0 <= i < |regions| ==> WellFormed(RegionSource(regions[i]))
    requires forall i :: 0 <= i < |known| ==> WellFormed(RegionSource(known[i]))
    ensures Without(regions, RegionUrlKey, known) == Without(regions, RegionKey, known)
  {
    if regions != [] {
      var n := |regions| - 1;
      UrlKeysFilterRegions(regions[..n], known);
      UrlKeyFindsRegion(known, regions[n]);
    }
  }

  lemma MergedRegionsWellFormed(items: seq<Region>, more: seq<Region>)
    requires forall i :: 0 <= i < |items| ==> WellFormed(RegionSource(items[i]))
    requires forall i :: 0 <= i < |more| ==> WellFormed(RegionSource(more[i]))
    ensures forall i :: 0 <= i < |PutAll(items, RegionKey, more)| ==>
              WellFormed(RegionSource(PutAll(items, RegionKey, more)[i]))
  {
    if more != [] {
      MergedRegionsWellFormed(items, more[..|more| - 1]);
    }
  }

  lemma MergedNames(previous: seq<Country>, probed: seq<Country>, id: string)
    requires Distinct(previous, CountryKey) && Distinct(probed, CountryKey) && HasKey(probed, CountryKey, id)
    ensures CountryName(PutAll(previous, CountryKey, probed), id) == CountryName(probed, id)
  {
    var merged := PutAll(previous, CountryKey, probed);
    PutAllKeys(previous, CountryKey, probed, id);
    PutAllDistinct(previous, CountryKey, probed);
    PutAllLookup(previous, CountryKey, probed, id);
    var last := LastOf(merged, CountryKey, id);
    var i :| 0 <= i < |merged| && merged[i] == last;
    IndexIsFirst(merged, CountryKey, id, i);
  }

  /** What a merged probe adds is what the probe itself adds, in one order. */
  lemma MergedAdditionsAreTheProbes(previous: Snapshot, probe: Topology)
    requires TopologyWellFormed(previous.countries, previous.regions)
             && TopologyWellFormed(probe.countries, probe.regions)
    requires Distinct(previous.countries, CountryKey)
    requires Distinct(probe.countries, CountryKey) && Distinct(probe.regions, RegionKey)
    requires forall i :: 0 <= i < |probe.regions| ==> HasKey(probe.countries, CountryKey, probe.regions[i].countryId)
    ensures var merge := MergedProbe(previous, probe);
            var merged := CollectChanges(previous, merge.countries, merge.regions);
            var raw := CollectChanges(previous, probe.countries, probe.regions);
            merged.addedCountries == raw.addedCountries && merged.addedRegions == raw.addedRegions
  {
    var merged := MergedProbe(previous, probe);
    AdditionsSurviveMerging(previous.countries, CountryKey, probe.countries);
    AdditionsSurviveMerging(previous.regions, RegionKey, probe.regions);
    MergedRegionsWellFormed(previous.regions, probe.regions);
    UrlKeysFilterRegions(merged.regions, previous.regions);
    UrlKeysFilterRegions(probe.regions, previous.regions);
    var added := Without(probe.regions, RegionUrlKey, previous.regions);
    forall i | 0 <= i < |added|
      ensures CountryName(merged.countries, added[i].countryId) == CountryName(probe.countries, added[i].countryId)
    {
      WithoutMembers(probe.regions, RegionUrlKey, previous.regions, added[i]);
      MergedNames(previous.countries, probe.countries, added[i].countryId);
    }
    assert RegionChanges(added, merged.countries) == RegionChanges(added, probe.countries);
  }
}
