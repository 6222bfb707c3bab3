/** The region notices held in memory after a topology refresh. */
module TopologyNotices {
  import opened Wrappers
  import opened Sources
  import opened KeyedLists
  import opened Topology
  import opened Prefetching
  import opened TopologyRefresh

  type NoticePlace = (string, Option<string>)

  function PlaceSource(place: NoticePlace): Source {
    Source(place.0, place.1)
  }

  lemma LookupAppend<T, K>(items: seq<T>, key: T -> K, item: T, k: K)
    ensures Lookup(items + [item], key, k)
            == if HasKey(items, key, k) then Lookup(items, key, k) else if key(item) == k then Some(item) else None
  {
    var r := items + [item];
    var index := IndexOf(items, key, k);
    IndexOfHasKey(items, key, k);
    IndexOfHasKey(r, key, k);
    if index < |items| {
      IndexIsFirst(r, key, k, index);
    } else if key(item) == k {
      IndexIsFirst(r, key, k, |items|);
    }
  }

  lemma LookupFinds<T, K>(items: seq<T>, key: T -> K, k: K)
    ensures Lookup(items, key, k).Some? <==> HasKey(items, key, k)
  {
    IndexOfHasKey(items, key, k);
  }

  lemma {:induction false} RetainedLookup(notices: seq<Notice>, active: set<Source>, place: NoticePlace)
    ensures Lookup(RetainedNotices(notices, active), NoticeKey, place)
            == if PlaceSource(place) in active then Lookup(notices, NoticeKey, place) else None
  {
    if notices != [] {
      var n := |notices| - 1;
      assert notices == notices[..n] + [notices[n]];
      RetainedLookup(notices[..n], active, place);
      LookupAppend(notices[..n], NoticeKey, notices[n], place);
      LookupFinds(notices[..n], NoticeKey, place);
      var kept := RetainedNotices(notices[..n], active);
      LookupAppend(kept, NoticeKey, notices[n], place);
      LookupFinds(kept, NoticeKey, place);
      assert kept + [] == kept;
    }
  }

  lemma {:induction false} NoticesOfLookup(notices: seq<Notice>, country: string, keys: set<string>, place: NoticePlace)
    ensures Lookup(NoticesOf(notices, country, keys), NoticeKey, place)
            == if place.0 == country && UrlKey(PlaceSource(place)) in keys then Lookup(notices, NoticeKey, place)
               else None
  {
    if notices != [] {
      var n := |notices| - 1;
      assert notices == notices[..n] + [notices[n]];
      NoticesOfLookup(notices[..n], country, keys, place);
      LookupAppend(notices[..n], NoticeKey, notices[n], place);
      LookupFinds(notices[..n], NoticeKey, place);
      var kept := NoticesOf(notices[..n], country, keys);
      LookupAppend(kept, NoticeKey, notices[n], place);
      LookupFinds(kept, NoticeKey, place);
      assert kept + [] == kept;
    }
  }

  /** Pushing what is missing keeps what is there, and adds the first item of every other key. */
  lemma {:induction false} PushMissingLookup<T, K>(items: seq<T>, key: T -> K, more: seq<T>, k: K)
    ensures Lookup(PushMissing(items, key, more), key, k)
            == if HasKey(items, key, k) then Lookup(items, key, k) else Lookup(more, key, k)
  {
    LookupFinds(items, key, k);
    if more != [] {
      var n := |more| - 1;
      var before := PushMissing(items, key, more[..n]);
      assert more == more[..n] + [more[n]];
      PushMissingLookup(items, key, more[..n], k);
      LookupAppend(before, key, more[n], k);
      LookupAppend(more[..n], key, more[n], k);
      LookupFinds(before, key, k);
      LookupFinds(more[..n], key, k);
    }
  }

  lemma LastAppend<T, K>(items: seq<T>, key: T -> K, item: T, k: K)
    requires HasKey(items + [item], key, k)
    ensures key(item) != k ==> HasKey(items, key, k)
    ensures LastOf(items + [item], key, k) == if key(item) == k then item else LastOf(items, key, k)
  {
    LastStep(items + [item], key, k);
    assert (items + [item])[..|items|] == items;
  }

  lemma {:induction false} PushMissingLast<T, K>(items: seq<T>, key: T -> K, more: seq<T>, k: K)
    requires HasKey(PushMissing(items, key, more), key, k)
    ensures !HasKey(items, key, k) ==> Lookup(more, key, k).Some?
    ensures LastOf(PushMissing(items, key, more), key, k)
            == if HasKey(items, key, k) then LastOf(items, key, k) else Lookup(more, key, k).value
  {
    PushMissingKeys(items, key, more, k);
    LookupFinds(more, key, k);
    if more != [] {
      var n := |more| - 1;
      var before := PushMissing(items, key, more[..n]);
      assert more == more[..n] + [more[n]];
      PushMissingKeys(items, key, more[..n], k);
      LookupAppend(more[..n], key, more[n], k);
      LookupFinds(more[..n], key, k);
      if HasKey(before, key, k) {
        PushMissingLast(items, key, more[..n], k);
      }
      if !HasKey(before, key, key(more[n])) {
        LastAppend(before, key, more[n], k);
      }
    }
  }

  /** The places of an ambiguous country whose notices are preserved. */
  predicate IsPreservedPlace(previous: Snapshot, countries: seq<string>, place: NoticePlace) {
    && place.0 in countries
    && (place.1.Some? ==> HasKey(previous.regions, RegionKey, (place.0, place.1.value)))
  }

  lemma KeptUrlKeys(previous: Snapshot, country: string, place: NoticePlace)
    requires TopologyWellFormed(previous.countries, previous.regions)
    requires WellFormed(PlaceSource(place)) && place.0 == country
    requires UrlKey(PlaceSource(place)) in PreservedUrlKeys(country, RegionsOf(previous.regions, country))
    ensures IsPreservedPlace(previous, [country], place)
  {
    var own := RegionsOf(previous.regions, country);
    if place.1.Some? {
      UrlKeyCollisions(PlaceSource(place), Source(country, None));
      var region :| region in own && RegionUrlKey(region) == UrlKey(PlaceSource(place));
      var i :| 0 <= i < |previous.regions| && previous.regions[i] == region;
      UrlKeyIsInjective(RegionSource(region), PlaceSource(place));
      assert RegionKey(previous.regions[i]) == (place.0, place.1.value);
    }
  }

  /** Preserving ambiguous countries keeps every found notice, and only brings back the notice that
      the previous snapshot holds for a preserved place. */
  lemma {:induction false} PreservedNotices(found: Topology, previous: Snapshot, countries: seq<string>,
      place: NoticePlace)
    requires TopologyWellFormed(previous.countries, previous.regions) && WellFormed(PlaceSource(place))
    ensures var notices := Preserved(found, previous, countries).notices;
            && (HasKey(found.notices, NoticeKey, place) ==>
                  HasKey(notices, NoticeKey, place)
                  && LastOf(notices, NoticeKey, place) == LastOf(found.notices, NoticeKey, place))
            && (HasKey(notices, NoticeKey, place) && !HasKey(found.notices, NoticeKey, place) ==>
                  && IsPreservedPlace(previous, countries, place)
                  && Lookup(previous.notices, NoticeKey, place) == Some(LastOf(notices, NoticeKey, place)))
  {
    hide PreservedOne, LastOf, Lookup;
    if countries != [] {
      var n := |countries| - 1;
      var t := Preserved(found, previous, countries[..n]);
      PreservedNotices(found, previous, countries[..n], place);
      assert countries == countries[..n] + [countries[n]];
      PreservedCountryNotices(t, previous, countries[n], place);
    }
  }

  lemma PreservedCountryNotices(t: Topology, previous: Snapshot, country: string, place: NoticePlace)
    requires TopologyWellFormed(previous.countries, previous.regions) && WellFormed(PlaceSource(place))
    ensures var notices := PreservedOne(t, previous, country).notices;
            && (HasKey(t.notices, NoticeKey, place) ==>
                  HasKey(notices, NoticeKey, place)
                  && LastOf(notices, NoticeKey, place) == LastOf(t.notices, NoticeKey, place))
            && (HasKey(notices, NoticeKey, place) && !HasKey(t.notices, NoticeKey, place) ==>
                  && IsPreservedPlace(previous, [country], place)
                  && Lookup(previous.notices, NoticeKey, place) == Some(LastOf(notices, NoticeKey, place)))
  {
    var keys := PreservedUrlKeys(country, RegionsOf(previous.regions, country));
    var more := NoticesOf(previous.notices, country, keys);
    PushMissingKeys(t.notices, NoticeKey, more, place);
    NoticesOfLookup(previous.notices, country, keys, place);
    LookupFinds(more, NoticeKey, place);
    if HasKey(PushMissing(t.notices, NoticeKey, more), NoticeKey, place) {
      PushMissingLast(t.notices, NoticeKey, more, place);
      if !HasKey(t.notices, NoticeKey, place) {
        KeptUrlKeys(previous, country, place);
      }
    }
  }

  /** After a refresh a place shows the notice found for it; without one, a current target keeps the
      notice it had, and a region that is gone has none. What is known about a current target's
      notice is not forgotten. */
  lemma NoticesAfterRefresh(s: State, found: Topology, pages: Pages, now: int, place: NoticePlace)
    requires Sound(s) && TopologyWellFormed(found.countries, found.regions) && WellFormed(PlaceSource(place))
    ensures Refreshed(s, found, pages, now).Success? ==>
              var after := Refreshed(s, found, pages, now).value.0;
              var shown := Lookup(after.snapshot.notices, NoticeKey, place);
              var current := PlaceSource(place) in TaskKeys(after.countries, after.regions);
              && (HasKey(found.notices, NoticeKey, place) ==> shown == Some(LastOf(found.notices, NoticeKey, place)))
              && (!HasKey(found.notices, NoticeKey, place) && current ==>
                    shown == Lookup(s.snapshot.notices, NoticeKey, place))
              && (!HasKey(found.notices, NoticeKey, place) && !current && place.1.Some? ==> shown == None)
              && (UrlKey(PlaceSource(place)) in s.snapshot.initializedKeys && current ==>
                    UrlKey(PlaceSource(place)) in after.snapshot.initializedKeys)
  {
    hide LastOf, Lookup, CollectChanges, Prefetched;
    var t := Preserved(found, s.snapshot, found.ambiguous);
    SnapshotNotice(s.snapshot, t, place);
    PreservedNotices(found, s.snapshot, found.ambiguous, place);
    PreservedTargets(found, s.snapshot, PlaceSource(place));
  }

  lemma SnapshotNotice(snapshot: Snapshot, t: Topology, place: NoticePlace)
    ensures Lookup(UpdatedSnapshot(snapshot, t).notices, NoticeKey, place)
            == if HasKey(t.notices, NoticeKey, place) then Some(LastOf(t.notices, NoticeKey, place))
               else if PlaceSource(place) in TaskKeys(t.countries, t.regions)
                 then Lookup(snapshot.notices, NoticeKey, place)
               else None
  {
    var active := TaskKeys(t.countries, t.regions);
    PutAllLookup(RetainedNotices(snapshot.notices, active), NoticeKey, t.notices, place);
    RetainedLookup(snapshot.notices, active, place);
  }
}
