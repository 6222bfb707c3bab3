/** The stored region notices against the notices in memory. */
module NoticeStorage {
  import opened Wrappers
  import opened Sources
  import opened KeyedLists
  import opened CatalogStore
  import opened CatalogLifecycle
  import opened Topology
  import opened Prefetching
  import opened TopologyRefresh
  import opened TopologyNotices
  import opened AddedTargets

  function Shown(snapshot: Snapshot, place: NoticePlace): Option<string> {
    var notice := Lookup(snapshot.notices, NoticeKey, place);
    if notice.Some? then Some(notice.value.text) else None
  }

  function StoredText(notices: StoredNotices, place: NoticePlace): Option<string> {
    TextAt(notices, PlaceSource(place))
  }

  /** Memory shows for a place what is stored for it, which is what a restart would show. */
  predicate Agree(s: State, place: NoticePlace) {
    Shown(s.snapshot, place) == StoredText(s.notices, place)
  }

  predicate NoticesWellFormed(notices: seq<Notice>) {
    forall notice :: notice in notices ==> WellFormed(Source(notice.countryId, notice.regionId))
  }

  /** A crawl finds notices on the pages that it reads. */
  predicate NoticesRead(found: Topology) {
    forall notice :: notice in found.notices ==> NoticeUrlKey(notice) in found.initializedKeys
  }

  predicate WasRead(t: Topology, place: NoticePlace) {
    UrlKey(PlaceSource(place)) in t.initializedKeys
  }

  /** The places that a refresh gives back from the previous snapshot. */
  predicate IsGivenBack(previous: Snapshot, countries: seq<string>, place: NoticePlace) {
    && place.0 in countries && RegionsOf(previous.regions, place.0) != []
    && (place.1.Some? ==> HasKey(previous.regions, RegionKey, (place.0, place.1.value)))
  }

  // Places and url keys.

  /** Among well-formed notices the url key of a place finds the notices of that place. */
  lemma {:induction false} UrlKeyNamesThePlace(notices: seq<Notice>, place: NoticePlace)
    requires NoticesWellFormed(notices) && WellFormed(PlaceSource(place))
    ensures var key := UrlKey(PlaceSource(place));
            && (HasKey(notices, NoticeUrlKey, key) <==> HasKey(notices, NoticeKey, place))
            && (HasKey(notices, NoticeUrlKey, key) ==>
                  LastOf(notices, NoticeUrlKey, key) == LastOf(notices, NoticeKey, place))
  {
    if notices != [] {
      var n := |notices| - 1;
      var key := UrlKey(PlaceSource(place));
      UrlKeyNamesThePlace(notices[..n], place);
      LastStep(notices, NoticeUrlKey, key);
      LastStep(notices, NoticeKey, place);
      assert notices[n] in notices;
      if NoticeUrlKey(notices[n]) == key {
        UrlKeyIsInjective(Source(notices[n].countryId, notices[n].regionId), PlaceSource(place));
      }
    }
  }

  lemma {:induction false} PushedNotices(items: seq<Notice>, more: seq<Notice>)
    requires NoticesWellFormed(items) && NoticesWellFormed(more)
    ensures NoticesWellFormed(PushMissing(items, NoticeKey, more))
  {
    if more != [] {
      PushedNotices(items, more[..|more| - 1]);
    }
  }

  lemma {:induction false} NoticesOfAreNotices(notices: seq<Notice>, country: string, keys: set<string>)
    ensures forall notice :: notice in NoticesOf(notices, country, keys) ==> notice in notices
  {
    if notices != [] {
      NoticesOfAreNotices(notices[..|notices| - 1], country, keys);
    }
  }

  lemma {:induction false} PreservedNoticesWellFormed(found: Topology, previous: Snapshot, countries: seq<string>)
    requires NoticesWellFormed(found.notices) && NoticesWellFormed(previous.notices)
    ensures NoticesWellFormed(Preserved(found, previous, countries).notices)
  {
    if countries != [] {
      var n := |countries| - 1;
      var keys := PreservedUrlKeys(countries[n], RegionsOf(previous.regions, countries[n]));
      PreservedNoticesWellFormed(found, previous, countries[..n]);
      NoticesOfAreNotices(previous.notices, countries[n], keys);
      PushedNotices(Preserved(found, previous, countries[..n]).notices,
        NoticesOf(previous.notices, countries[n], keys));
    }
  }

  // What preservation gives back.

  lemma GivenBackKeys(previous: Snapshot, country: string, place: NoticePlace)
    requires TopologyWellFormed(previous.countries, previous.regions) && WellFormed(PlaceSource(place))
    ensures var own := RegionsOf(previous.regions, country);
            own != [] ==>
              (UrlKey(PlaceSource(place)) in PreservedUrlKeys(country, own)
               <==> IsGivenBack(previous, [country], place))
  {
    var own := RegionsOf(previous.regions, country);
    if own != [] {
      var i :| 0 <= i < |previous.regions| && previous.regions[i] == own[0];
      assert WellFormed(RegionSource(own[0]));
      if place.0 == country {
        if UrlKey(PlaceSource(place)) in PreservedUrlKeys(country, own) {
          KeptUrlKeys(previous, country, place);
        }
        if place.1.Some? && HasKey(previous.regions, RegionKey, (place.0, place.1.value)) {
          CountryRegionKeys(previous.regions, country, (place.0, place.1.value));
          var j :| 0 <= j < |own| && RegionKey(own[j]) == (place.0, place.1.value);
          assert own[j] in own && RegionUrlKey(own[j]) == UrlKey(PlaceSource(place));
        }
      } else if UrlKey(PlaceSource(place)) in PreservedUrlKeys(country, own) {
        ForeignKey(own, country, place);
      }
    }
  }

  lemma ForeignKey(own: seq<Region>, country: string, place: NoticePlace)
    requires forall region :: region in own ==> region.countryId == country
    requires ':' !in country && ':' !in place.0
    requires UrlKey(PlaceSource(place)) in PreservedUrlKeys(country, own)
    ensures place.0 == country
  {
    if UrlKey(PlaceSource(place)) == UrlKey(Source(country, None)) {
      UrlKeyCollisions(PlaceSource(place), Source(country, None));
    } else {
      var region :| region in own && RegionUrlKey(region) == UrlKey(PlaceSource(place));
      UrlKeyCollisions(PlaceSource(place), RegionSource(region));
    }
  }

  lemma GivenBackOnce(t: Topology, previous: Snapshot, country: string, place: NoticePlace)
    requires TopologyWellFormed(previous.countries, previous.regions) && WellFormed(PlaceSource(place))
    ensures var next := PreservedOne(t, previous, country);
            var back := IsGivenBack(previous, [country], place);
            && (WasRead(next, place)
                <==> WasRead(t, place) || (back && UrlKey(PlaceSource(place)) in previous.initializedKeys))
            && (HasKey(next.notices, NoticeKey, place)
                <==> HasKey(t.notices, NoticeKey, place) || (back && HasKey(previous.notices, NoticeKey, place)))
  {
    var own := RegionsOf(previous.regions, country);
    GivenBackKeys(previous, country, place);
    if own != [] {
      var keys := PreservedUrlKeys(country, own);
      var more := NoticesOf(previous.notices, country, keys);
      PushMissingKeys(t.notices, NoticeKey, more, place);
      NoticesOfLookup(previous.notices, country, keys, place);
      LookupFinds(more, NoticeKey, place);
      LookupFinds(previous.notices, NoticeKey, place);
    }
  }

  /** Preserving ambiguous countries brings back the notice state of exactly the given-back places. */
  lemma {:induction false} GivenBack(found: Topology, previous: Snapshot, countries: seq<string>, place: NoticePlace)
    requires TopologyWellFormed(previous.countries, previous.regions) && WellFormed(PlaceSource(place))
    ensures var t := Preserved(found, previous, countries);
            var back := IsGivenBack(previous, countries, place);
            && (WasRead(t, place)
                <==> WasRead(found, place) || (back && UrlKey(PlaceSource(place)) in previous.initializedKeys))
            && (HasKey(t.notices, NoticeKey, place)
                <==> HasKey(found.notices, NoticeKey, place) || (back && HasKey(previous.notices, NoticeKey, place)))
  {
    hide PreservedOne, HasKey, RegionsOf, WasRead;
    if countries != [] {
      var n := |countries| - 1;
      GivenBack(found, previous, countries[..n], place);
      GivenBackOnce(Preserved(found, previous, countries[..n]), previous, countries[n], place);
      assert countries == countries[..n] + [countries[n]];
    }
  }

  // After a refresh or a probe.

  lemma PersistedText(notices: StoredNotices, t: Topology, place: NoticePlace)
    requires NoticesWellFormed(t.notices) && WellFormed(PlaceSource(place))
    requires PlaceSource(place) in TaskKeys(t.countries, t.regions)
    ensures StoredText(StoredAfter(notices, t), place)
            == if !WasRead(t, place) then StoredText(notices, place)
               else if HasKey(t.notices, NoticeKey, place) then Some(LastOf(t.notices, NoticeKey, place).text)
               else None
  {
    UrlKeyNamesThePlace(t.notices, place);
  }

  lemma OrderIsWellFormed(s: State, found: Topology)
    requires Sound(s) && TopologyWellFormed(found.countries, found.regions)
    ensures var merged := MergedProbe(s.snapshot, Preserved(found, s.snapshot, found.ambiguous));
            forall target :: target in AddedOrder(s.snapshot, merged.countries, merged.regions) ==> WellFormed(target)
  {
    var merged := MergedProbe(s.snapshot, Preserved(found, s.snapshot, found.ambiguous));
    TopologiesWellFormed(s.snapshot, found);
    PrefetchedAreNew(s.snapshot, merged.countries, merged.regions);
    forall target | target in AddedOrder(s.snapshot, merged.countries, merged.regions)
      ensures WellFormed(target)
    {
      TopologyTargetsWellFormed(merged.countries, merged.regions, target);
    }
  }

  /** The notice of a place's own page. */
  function PageNotice(pages: Pages, place: NoticePlace): Option<string> {
    if PlaceSource(place) in pages then pages[PlaceSource(place)].notice else None
  }

  /** A place that was added and whose page was applied. */
  predicate IsPrefetched(s: State, failures: set<string>, place: NoticePlace) {
    && PlaceSource(place) !in TaskKeys(s.snapshot.countries, s.snapshot.regions)
    && UrlKey(PlaceSource(place)) !in failures
  }

  /** What a place shows and what is stored for it after a topology was taken over. */
  lemma TextsAfter(s: State, found: Topology, t: Topology, db: Db, pages: Pages, place: NoticePlace)
    requires Sound(s) && TopologyWellFormed(found.countries, found.regions) && NoticesWellFormed(t.notices)
    requires var merged := MergedProbe(s.snapshot, Preserved(found, s.snapshot, found.ambiguous));
             PlaceSource(place) in TaskKeys(merged.countries, merged.regions)
    requires WellFormed(PlaceSource(place)) && PlaceSource(place) in TaskKeys(t.countries, t.regions)
    ensures var merged := MergedProbe(s.snapshot, Preserved(found, s.snapshot, found.ambiguous));
            var order := AddedOrder(s.snapshot, merged.countries, merged.regions);
            var p := Prefetched(db, StoredAfter(s.notices, t), order, pages);
            var has := HasKey(t.notices, NoticeKey, place);
            && Shown(UpdatedSnapshot(s.snapshot, t), place)
               == (if has then Some(LastOf(t.notices, NoticeKey, place).text) else Shown(s.snapshot, place))
            && StoredText(p.notices, place)
               == (if IsPrefetched(s, p.failed, place) then PageNotice(pages, place)
                   else if !WasRead(t, place) then StoredText(s.notices, place)
                   else if has then Some(LastOf(t.notices, NoticeKey, place).text) else None)
  {
    hide Preserved, MergedProbe, AddedOrder, StoredAfter, Prefetched, UpdatedSnapshot, Lookup, LastOf, HasKey;
    var preserved := Preserved(found, s.snapshot, found.ambiguous);
    var merged := MergedProbe(s.snapshot, preserved);
    var order := AddedOrder(s.snapshot, merged.countries, merged.regions);
    TopologiesWellFormed(s.snapshot, found);
    OrderIsWellFormed(s, found);
    AddedOnce(s.snapshot, preserved, PlaceSource(place));
    if PlaceSource(place) in TaskKeys(s.snapshot.countries, s.snapshot.regions) {
      NotPrefetched(db, StoredAfter(s.notices, t), order, pages, PlaceSource(place));
    } else {
      PrefetchedNotice(db, StoredAfter(s.notices, t), order, pages, PlaceSource(place));
    }
    PersistedText(s.notices, t, place);
    SnapshotNotice(s.snapshot, t, place);
  }

  /** What memory shows next: the notice that was found, or else the one held before. */
  function NextShown(s: State, found: Topology, place: NoticePlace): Option<string> {
    if HasKey(found.notices, NoticeKey, place) then Some(LastOf(found.notices, NoticeKey, place).text)
    else Shown(s.snapshot, place)
  }

  /** The page of a place was read by the crawl, or its read mark is given back. */
  predicate CountsAsRead(s: State, found: Topology, place: NoticePlace) {
    || WasRead(found, place)
    || (IsGivenBack(s.snapshot, found.ambiguous, place)
        && UrlKey(PlaceSource(place)) in s.snapshot.initializedKeys)
  }

  /** Every place of the topology that a refresh stores. Memory takes the crawl's notice and otherwise
      keeps its own. The store takes the notice of an added page that was applied; otherwise the crawl's
      if the page was read, but nothing if it found none, unless the place is given back. */
  lemma RefreshTexts(s: State, found: Topology, pages: Pages, now: int, place: NoticePlace)
    requires Sound(s) && TopologyWellFormed(found.countries, found.regions) && WellFormed(PlaceSource(place))
    requires NoticesWellFormed(s.snapshot.notices) && NoticesWellFormed(found.notices) && NoticesRead(found)
    ensures Refreshed(s, found, pages, now).Success? ==>
              var (after, report) := Refreshed(s, found, pages, now).value;
              PlaceSource(place) in TaskKeys(after.countries, after.regions) ==>
                && Shown(after.snapshot, place) == NextShown(s, found, place)
                && StoredText(after.notices, place)
                   == (if IsPrefetched(s, report.prefetchFailures, place) then PageNotice(pages, place)
                       else if !CountsAsRead(s, found, place) then StoredText(s.notices, place)
                       else if HasKey(found.notices, NoticeKey, place)
                               || IsGivenBack(s.snapshot, found.ambiguous, place) then NextShown(s, found, place)
                       else None)
  {
    hide Prefetched, CollectChanges, UpdatedSnapshot, StoredAfter, Retired, Preserved, AddedOrder, MergedProbe,
      LastOf, RegionsOf, IsPrefetched, PageNotice;
    var t := Preserved(found, s.snapshot, found.ambiguous);
    if PlaceSource(place) in TaskKeys(t.countries, t.regions) {
      PreservedNoticesWellFormed(found, s.snapshot, found.ambiguous);
      MergedTargets(s.snapshot, t, PlaceSource(place));
      TextsAfter(s, found, t, Retired(s.db, RemovedTargets(s, t.countries, t.regions), now), pages, place);
      GivenBack(found, s.snapshot, found.ambiguous, place);
      PreservedNotices(found, s.snapshot, found.ambiguous, place);
      LookupFinds(s.snapshot.notices, NoticeKey, place);
      FoundIsRead(found, place);
    }
  }

  /** So, for every place of the new topology, memory and store agree after a refresh exactly if the
      applied page of an added place has the notice that memory shows; and otherwise, if the crawl found
      a notice; or read the page without one, and memory holds none or the place is given back; or did
      not read it, and they agreed before. */
  lemma RefreshAgreesExactly(s: State, found: Topology, pages: Pages, now: int, place: NoticePlace)
    requires Sound(s) && TopologyWellFormed(found.countries, found.regions) && WellFormed(PlaceSource(place))
    requires NoticesWellFormed(s.snapshot.notices) && NoticesWellFormed(found.notices) && NoticesRead(found)
    ensures Refreshed(s, found, pages, now).Success? ==>
              var (after, report) := Refreshed(s, found, pages, now).value;
              PlaceSource(place) in TaskKeys(after.countries, after.regions) ==>
                (Agree(after, place)
                 <==> if IsPrefetched(s, report.prefetchFailures, place)
                      then PageNotice(pages, place) == NextShown(s, found, place)
                      else || HasKey(found.notices, NoticeKey, place)
                           || (if CountsAsRead(s, found, place)
                               then IsGivenBack(s.snapshot, found.ambiguous, place) || Shown(s.snapshot, place).None?
                               else Agree(s, place)))
  {
    hide Refreshed, IsPrefetched, PageNotice, IsGivenBack, Shown, StoredText;
    RefreshTexts(s, found, pages, now, place);
    FoundIsRead(found, place);
  }

  lemma FoundIsRead(found: Topology, place: NoticePlace)
    requires NoticesRead(found)
    ensures HasKey(found.notices, NoticeKey, place) ==> WasRead(found, place)
  {
    if HasKey(found.notices, NoticeKey, place) {
      var i :| 0 <= i < |found.notices| && NoticeKey(found.notices[i]) == place;
      assert found.notices[i] in found.notices;
    }
  }

  lemma {:induction false} PutNoticesWellFormed(items: seq<Notice>, more: seq<Notice>)
    requires NoticesWellFormed(items) && NoticesWellFormed(more)
    ensures NoticesWellFormed(PutAll(items, NoticeKey, more))
  {
    if more != [] {
      PutNoticesWellFormed(items, more[..|more| - 1]);
    }
  }

  lemma {:induction false} RetainedAreNotices(notices: seq<Notice>, active: set<Source>)
    ensures forall notice :: notice in RetainedNotices(notices, active) ==> notice in notices
  {
    if notices != [] {
      RetainedAreNotices(notices[..|notices| - 1], active);
    }
  }

  lemma SnapshotNoticesWellFormed(snapshot: Snapshot, t: Topology)
    requires NoticesWellFormed(snapshot.notices) && NoticesWellFormed(t.notices)
    ensures NoticesWellFormed(UpdatedSnapshot(snapshot, t).notices)
  {
    var active := TaskKeys(t.countries, t.regions);
    RetainedAreNotices(snapshot.notices, active);
    PutNoticesWellFormed(RetainedNotices(snapshot.notices, active), t.notices);
  }

  ghost predicate NoticesDistinct(notices: seq<Notice>) {
    Distinct(notices, NoticeKey)
  }

  lemma LastIsTheOne<T, K>(items: seq<T>, key: T -> K, k: K)
    requires Distinct(items, key) && HasKey(items, key, k)
    ensures Lookup(items, key, k) == Some(LastOf(items, key, k))
  {
    var last := LastOf(items, key, k);
    var i :| 0 <= i < |items| && items[i] == last;
    assert key(last) == k;
    assert forall j :: 0 <= j < i ==> key(items[j]) != key(items[i]);
    IndexIsFirst(items, key, k, i);
  }

  lemma NewKeyStaysNew(notices: seq<Notice>, kept: seq<Notice>, last: Notice)
    requires NoticesDistinct(notices + [last]) && forall notice :: notice in kept ==> notice in notices
    ensures forall i :: 0 <= i < |kept| ==> NoticeKey(kept[i]) != NoticeKey(last)
  {
    var all := notices + [last];
    forall i | 0 <= i < |kept|
      ensures NoticeKey(kept[i]) != NoticeKey(last)
    {
      assert kept[i] in kept;
      var k :| 0 <= k < |notices| && notices[k] == kept[i];
      assert all[k] == kept[i] && all[|notices|] == last;
    }
  }

  lemma {:induction false} RetainedDistinct(notices: seq<Notice>, active: set<Source>)
    requires NoticesDistinct(notices)
    ensures NoticesDistinct(RetainedNotices(notices, active))
  {
    if notices != [] {
      var n := |notices| - 1;
      assert forall i :: 0 <= i < n ==> notices[..n][i] == notices[i];
      assert notices == notices[..n] + [notices[n]];
      RetainedDistinct(notices[..n], active);
      RetainedAreNotices(notices[..n], active);
      NewKeyStaysNew(notices[..n], RetainedNotices(notices[..n], active), notices[n]);
    }
  }

  lemma SnapshotNoticesDistinct(snapshot: Snapshot, t: Topology)
    requires NoticesDistinct(snapshot.notices)
    ensures NoticesDistinct(UpdatedSnapshot(snapshot, t).notices)
  {
    var active := TaskKeys(t.countries, t.regions);
    RetainedDistinct(snapshot.notices, active);
    PutAllDistinct(RetainedNotices(snapshot.notices, active), NoticeKey, t.notices);
  }

  /** The notice of a merged probe for a place: the one found, or else the one held before. */
  lemma MergedNotice(s: State, found: Topology, place: NoticePlace)
    requires Sound(s) && WellFormed(PlaceSource(place)) && NoticesDistinct(s.snapshot.notices)
    ensures var t := MergedProbe(s.snapshot, Preserved(found, s.snapshot, found.ambiguous));
            NextShown(s, found, place)
            == if HasKey(t.notices, NoticeKey, place) then Some(LastOf(t.notices, NoticeKey, place).text) else None
  {
    hide Preserved, LastOf, Lookup;
    var preserved := Preserved(found, s.snapshot, found.ambiguous);
    var notices := PutAll(s.snapshot.notices, NoticeKey, preserved.notices);
    PreservedNotices(found, s.snapshot, found.ambiguous, place);
    PutAllKeys(s.snapshot.notices, NoticeKey, preserved.notices, place);
    PutAllLookup(s.snapshot.notices, NoticeKey, preserved.notices, place);
    PutAllDistinct(s.snapshot.notices, NoticeKey, preserved.notices);
    LookupFinds(s.snapshot.notices, NoticeKey, place);
    if HasKey(notices, NoticeKey, place) {
      LastIsTheOne(notices, NoticeKey, place);
    }
  }

  /** Every place of the topology that a probe stores. The store takes the notice of an added page that
      was applied, and otherwise what memory shows next if the page was ever read. */
  lemma ProbeTexts(s: State, found: Topology, pages: Pages, place: NoticePlace)
    requires Sound(s) && TopologyWellFormed(found.countries, found.regions) && WellFormed(PlaceSource(place))
    requires NoticesWellFormed(s.snapshot.notices) && NoticesDistinct(s.snapshot.notices)
    requires NoticesWellFormed(found.notices) && NoticesRead(found)
    ensures Probed(s, found, pages).Success? ==>
              var (after, report) := Probed(s, found, pages).value;
              PlaceSource(place) in TaskKeys(after.countries, after.regions) ==>
                && Shown(after.snapshot, place) == NextShown(s, found, place)
                && StoredText(after.notices, place)
                   == (if IsPrefetched(s, report.prefetchFailures, place) then PageNotice(pages, place)
                       else if UrlKey(PlaceSource(place)) in s.snapshot.initializedKeys || WasRead(found, place)
                       then NextShown(s, found, place)
                       else StoredText(s.notices, place))
  {
    hide Prefetched, CollectChanges, UpdatedSnapshot, StoredAfter, Preserved, AddedOrder, LastOf, RegionsOf, PutAll,
      IsPrefetched, PageNotice;
    var preserved := Preserved(found, s.snapshot, found.ambiguous);
    var t := MergedProbe(s.snapshot, preserved);
    if PlaceSource(place) in TaskKeys(t.countries, t.regions) {
      PreservedNoticesWellFormed(found, s.snapshot, found.ambiguous);
      PutNoticesWellFormed(s.snapshot.notices, preserved.notices);
      GivenBack(found, s.snapshot, found.ambiguous, place);
      TextsAfter(s, found, t, s.db, pages, place);
      MergedNotice(s, found, place);
      PutAllKeys(s.snapshot.notices, NoticeKey, preserved.notices, place);
      LookupFinds(s.snapshot.notices, NoticeKey, place);
    }
  }

  /** So, for every place that is a target after a probe, memory and store agree exactly if the applied
      page of an added place has the notice that memory shows; and otherwise, if the page was ever read,
      even if the two had gone apart; or if they agreed before. */
  lemma ProbeAgreesExactly(s: State, found: Topology, pages: Pages, place: NoticePlace)
    requires Sound(s) && TopologyWellFormed(found.countries, found.regions) && WellFormed(PlaceSource(place))
    requires NoticesWellFormed(s.snapshot.notices) && NoticesDistinct(s.snapshot.notices)
    requires NoticesWellFormed(found.notices) && NoticesRead(found)
    ensures Probed(s, found, pages).Success? ==>
              var (after, report) := Probed(s, found, pages).value;
              PlaceSource(place) in TaskKeys(after.countries, after.regions) ==>
                (Agree(after, place)
                 <==> if IsPrefetched(s, report.prefetchFailures, place)
                      then PageNotice(pages, place) == NextShown(s, found, place)
                      else || UrlKey(PlaceSource(place)) in s.snapshot.initializedKeys || WasRead(found, place)
                           || Agree(s, place))
  {
    hide Probed, IsPrefetched, PageNotice, Shown, StoredText;
    ProbeTexts(s, found, pages, place);
    FoundIsRead(found, place);
  }

  // Regions.

  /** A crawl reads the pages of the countries it finds, and no region page. */
  predicate ReadsCountryPages(found: Topology) {
    && (forall key :: key in found.initializedKeys ==>
          exists country :: country in found.countries && key == UrlKey(Source(country.id, None)))
    && (forall notice :: notice in found.notices ==> notice.regionId.None?)
  }

  lemma RegionsAreNotRead(found: Topology, place: NoticePlace)
    requires TopologyWellFormed(found.countries, found.regions) && ReadsCountryPages(found)
    requires WellFormed(PlaceSource(place)) && place.1.Some?
    ensures !WasRead(found, place) && !HasKey(found.notices, NoticeKey, place)
  {
    if WasRead(found, place) {
      var country :| country in found.countries && UrlKey(PlaceSource(place)) == UrlKey(Source(country.id, None));
      var i :| 0 <= i < |found.countries| && found.countries[i] == country;
      UrlKeyIsInjective(PlaceSource(place), Source(country.id, None));
    }
  }

  /** Since a crawl reads no region page, memory never takes the notice of an added region: it agrees
      with the store exactly if the region's applied page shows what memory held before, or, if the page
      failed, if they agreed before. */
  lemma AddedRegionAgreesExactly(s: State, found: Topology, pages: Pages, now: int, place: NoticePlace)
    requires Sound(s) && TopologyWellFormed(found.countries, found.regions) && WellFormed(PlaceSource(place))
    requires NoticesWellFormed(s.snapshot.notices) && NoticesWellFormed(found.notices) && NoticesRead(found)
    requires ReadsCountryPages(found) && place.1.Some?
    requires PlaceSource(place) !in TaskKeys(s.snapshot.countries, s.snapshot.regions)
    ensures Refreshed(s, found, pages, now).Success? ==>
              var (after, report) := Refreshed(s, found, pages, now).value;
              PlaceSource(place) in TaskKeys(after.countries, after.regions) ==>
                (Agree(after, place)
                 <==> if UrlKey(PlaceSource(place)) in report.prefetchFailures then Agree(s, place)
                      else PageNotice(pages, place) == Shown(s.snapshot, place))
  {
    hide Refreshed, PageNotice, Agree, Shown;
    RegionsAreNotRead(found, place);
    HasKeyIsTarget(s.snapshot.countries, s.snapshot.regions, PlaceSource(place));
    RefreshAgreesExactly(s, found, pages, now, place);
  }

  // After a fetch through the queue.

  function OtherNotices(notices: seq<Notice>, place: NoticePlace): seq<Notice> {
    if notices == [] then []
    else
      var n := |notices| - 1;
      OtherNotices(notices[..n], place) + (if NoticeKey(notices[n]) == place then [] else [notices[n]])
  }

  /** The snapshot after a fetched page: its notice takes the place of the one held before. */
  function WithSnapshotNotice(snapshot: Snapshot, target: Source, notice: Option<string>): Snapshot {
    var others := OtherNotices(snapshot.notices, (target.fid, target.gid));
    snapshot.(initializedKeys := snapshot.initializedKeys + {UrlKey(target)},
              notices := if notice.Some? then others + [Notice(target.fid, target.gid, notice.value)] else others)
  }

  lemma {:induction false} OtherNoticesLookup(notices: seq<Notice>, gone: NoticePlace, place: NoticePlace)
    ensures Lookup(OtherNotices(notices, gone), NoticeKey, place)
            == if place == gone then None else Lookup(notices, NoticeKey, place)
    ensures forall notice :: notice in OtherNotices(notices, gone) ==> notice in notices
  {
    if notices != [] {
      var n := |notices| - 1;
      assert notices == notices[..n] + [notices[n]];
      OtherNoticesLookup(notices[..n], gone, place);
      LookupAppend(notices[..n], NoticeKey, notices[n], place);
      LookupFinds(notices[..n], NoticeKey, place);
      var kept := OtherNotices(notices[..n], gone);
      LookupAppend(kept, NoticeKey, notices[n], place);
      LookupFinds(kept, NoticeKey, place);
      assert kept + [] == kept;
    }
  }

  lemma {:induction false} OtherNoticesDistinct(notices: seq<Notice>, gone: NoticePlace)
    requires NoticesDistinct(notices)
    ensures NoticesDistinct(OtherNotices(notices, gone))
  {
    if notices != [] {
      var n := |notices| - 1;
      assert forall i :: 0 <= i < n ==> notices[..n][i] == notices[i];
      assert notices == notices[..n] + [notices[n]];
      OtherNoticesDistinct(notices[..n], gone);
      OtherNoticesLookup(notices[..n], gone, gone);
      NewKeyStaysNew(notices[..n], OtherNotices(notices[..n], gone), notices[n]);
    }
  }

  /** A fetched page marks its place as read, and no other; countries and regions stay. */
  lemma FetchMarksTheRead(snapshot: Snapshot, target: Source, notice: Option<string>, key: string)
    ensures var after := WithSnapshotNotice(snapshot, target, notice);
            && (key in after.initializedKeys <==> key in snapshot.initializedKeys || key == UrlKey(target))
            && after.countries == snapshot.countries && after.regions == snapshot.regions
  {
  }

  /** A fetched page sets its notice in memory and in the store, and no other place changes. */
  lemma FetchAgrees(snapshot: Snapshot, notices: StoredNotices, target: Source, notice: Option<string>,
      place: NoticePlace)
    requires WellFormed(target) && WellFormed(PlaceSource(place))
    ensures var after := WithSnapshotNotice(snapshot, target, notice);
            var stored := WithNotice(notices, target, notice);
            && Shown(after, place) == (if PlaceSource(place) == target then notice else Shown(snapshot, place))
            && StoredText(stored, place)
               == (if PlaceSource(place) == target then notice else StoredText(notices, place))
    ensures NoticesWellFormed(snapshot.notices) ==>
              NoticesWellFormed(WithSnapshotNotice(snapshot, target, notice).notices)
    ensures NoticesDistinct(snapshot.notices) ==>
              NoticesDistinct(WithSnapshotNotice(snapshot, target, notice).notices)
  {
    var own := (target.fid, target.gid);
    var others := OtherNotices(snapshot.notices, own);
    OtherNoticesLookup(snapshot.notices, own, place);
    OtherNoticesLookup(snapshot.notices, own, own);
    LookupFinds(others, NoticeKey, place);
    LookupFinds(others, NoticeKey, own);
    if NoticesDistinct(snapshot.notices) {
      OtherNoticesDistinct(snapshot.notices, own);
    }
    if notice.Some? {
      LookupAppend(others, NoticeKey, Notice(target.fid, target.gid, notice.value), place);
    }
    if PlaceSource(place) != target && UrlKey(PlaceSource(place)) == UrlKey(target) {
      UrlKeyIsInjective(PlaceSource(place), target);
    }
  }
}
