/** Exactly when a refresh or a probe fails, in every state that refreshes, probes and catalog
    updates can lead to. */
module TopologyRuns {
  import opened Wrappers
  import opened Sources
  import opened KeyedLists
  import opened CatalogStore
  import opened CatalogLifecycle
  import CatalogRuns
  import opened Topology
  import opened Prefetching
  import opened TopologyRefresh
  import opened AddedTargets
  import opened TopologyNotices
  import opened NoticeStorage

  // Region ids and countries.

  /** Some region id is found under another country than it is held under. */
  ghost predicate MovesARegion(found: seq<Region>, held: seq<Region>) {
    exists i, j :: 0 <= i < |found| && 0 <= j < |held| && IsMove(found[i], held[j])
  }

  /** The same, of a region that is held for an ambiguous country. */
  ghost predicate MovesAnAmbiguousRegion(found: seq<Region>, held: seq<Region>, ambiguous: seq<string>) {
    exists i, j :: 0 <= i < |found| && 0 <= j < |held| && IsMove(found[i], held[j]) && held[j].countryId in ambiguous
  }

  predicate IsMove(a: Region, b: Region) {
    a.id == b.id && a.countryId != b.countryId
  }

  /** Two keys of a list name one region id under two countries. */
  ghost predicate Clashes(regions: seq<Region>, a: (string, string), b: (string, string)) {
    a.1 == b.1 && a.0 != b.0 && HasKey(regions, RegionKey, a) && HasKey(regions, RegionKey, b)
  }

  lemma ClashingKeysRepeatAnId(regions: seq<Region>, a: (string, string), b: (string, string))
    requires Clashes(regions, a, b)
    ensures !Distinct(regions, RegionId)
  {
    var i :| 0 <= i < |regions| && RegionKey(regions[i]) == a;
    var j :| 0 <= j < |regions| && RegionKey(regions[j]) == b;
    assert RegionId(regions[i]) == RegionId(regions[j]) && i != j;
  }

  /** In a list with distinct keys, a repeated id is a clash of two keys. */
  lemma RepeatedIdClashes(regions: seq<Region>) returns (a: (string, string), b: (string, string))
    requires Distinct(regions, RegionKey) && !Distinct(regions, RegionId)
    ensures Clashes(regions, a, b)
  {
    var i, j :| 0 <= i < j < |regions| && RegionId(regions[i]) == RegionId(regions[j]);
    a, b := RegionKey(regions[i]), RegionKey(regions[j]);
  }

  lemma DistinctIdsHaveDistinctKeys(regions: seq<Region>)
    requires Distinct(regions, RegionId)
    ensures Distinct(regions, RegionKey)
  {
    forall i, j | 0 <= i < j < |regions|
      ensures RegionKey(regions[i]) != RegionKey(regions[j])
    {
      assert RegionId(regions[i]) != RegionId(regions[j]);
    }
  }

  lemma KeysMove(found: seq<Region>, held: seq<Region>, a: (string, string), b: (string, string))
    requires HasKey(found, RegionKey, a) && HasKey(held, RegionKey, b) && a.1 == b.1 && a.0 != b.0
    ensures MovesARegion(found, held)
    ensures forall ambiguous :: b.0 in ambiguous ==> MovesAnAmbiguousRegion(found, held, ambiguous)
  {
    var i :| 0 <= i < |found| && RegionKey(found[i]) == a;
    var j :| 0 <= j < |held| && RegionKey(held[j]) == b;
    assert IsMove(found[i], held[j]);
  }

  // Probes.

  lemma ProbedKeys(previous: Snapshot, found: Topology, key: (string, string))
    ensures HasKey(MergedProbe(previous, Preserved(found, previous, found.ambiguous)).regions, RegionKey, key)
            <==> HasKey(previous.regions, RegionKey, key) || HasKey(found.regions, RegionKey, key)
  {
    var t := Preserved(found, previous, found.ambiguous);
    PutAllKeys(previous.regions, RegionKey, t.regions, key);
    PreservedRegionKeys(found, previous, found.ambiguous, key);
  }

  /** What a probe stores repeats an id exactly if the found regions name a region id under another
      country than the snapshot or than themselves. */
  lemma ProbeIsStorableExactly(previous: Snapshot, found: Topology)
    requires CanStore(previous.countries, previous.regions)
    ensures var merged := MergedProbe(previous, Preserved(found, previous, found.ambiguous));
            CanStore(merged.countries, merged.regions)
            <==> !MovesARegion(found.regions, previous.regions) && !MovesARegion(found.regions, found.regions)
  {
    var t := Preserved(found, previous, found.ambiguous);
    var regions := MergedProbe(previous, t).regions;
    PutAllDistinct(previous.countries, CountryKey, t.countries);
    DistinctIdsHaveDistinctKeys(previous.regions);
    PutAllDistinct(previous.regions, RegionKey, t.regions);
    if MovesARegion(found.regions, previous.regions) || MovesARegion(found.regions, found.regions) {
      MoveClashes(previous, found);
    }
    if !Distinct(regions, RegionId) {
      var a, b := RepeatedIdClashes(regions);
      ProbedKeys(previous, found, a);
      ProbedKeys(previous, found, b);
      ClashMoves(previous, found, a, b);
    }
  }

  lemma MoveClashes(previous: Snapshot, found: Topology)
    requires MovesARegion(found.regions, previous.regions) || MovesARegion(found.regions, found.regions)
    ensures !Distinct(MergedProbe(previous, Preserved(found, previous, found.ambiguous)).regions, RegionId)
  {
    var held := if MovesARegion(found.regions, previous.regions) then previous.regions else found.regions;
    var i, j :| 0 <= i < |found.regions| && 0 <= j < |held| && IsMove(found.regions[i], held[j]);
    var a, b := RegionKey(found.regions[i]), RegionKey(held[j]);
    assert HasKey(found.regions, RegionKey, a) && HasKey(held, RegionKey, b);
    ProbedKeys(previous, found, a);
    ProbedKeys(previous, found, b);
    ClashingKeysRepeatAnId(MergedProbe(previous, Preserved(found, previous, found.ambiguous)).regions, a, b);
  }

  lemma ClashMoves(previous: Snapshot, found: Topology, a: (string, string), b: (string, string))
    requires Distinct(previous.regions, RegionId) && a.1 == b.1 && a.0 != b.0
    requires HasKey(previous.regions, RegionKey, a) || HasKey(found.regions, RegionKey, a)
    requires HasKey(previous.regions, RegionKey, b) || HasKey(found.regions, RegionKey, b)
    ensures MovesARegion(found.regions, previous.regions) || MovesARegion(found.regions, found.regions)
  {
    if Clashes(previous.regions, a, b) {
      ClashingKeysRepeatAnId(previous.regions, a, b);
    } else if HasKey(found.regions, RegionKey, a) {
      KeysMove(found.regions, if HasKey(found.regions, RegionKey, b) then found.regions else previous.regions, a, b);
    } else {
      KeysMove(found.regions, previous.regions, b, a);
    }
  }

  // Full refreshes.

  /** What a refresh stores repeats an id exactly if what was found does, or if the found regions
      name a region id under another country than an ambiguous country holds it. */
  lemma RefreshIsStorableExactly(previous: Snapshot, found: Topology)
    requires CanStore(previous.countries, previous.regions)
    ensures var t := Preserved(found, previous, found.ambiguous);
            CanStore(t.countries, t.regions)
            <==> && CanStore(found.countries, found.regions)
                 && !MovesAnAmbiguousRegion(found.regions, previous.regions, found.ambiguous)
  {
    var t := Preserved(found, previous, found.ambiguous);
    PreservedRegionKeys(found, previous, found.ambiguous, ("", ""));
    assert forall i :: 0 <= i < |found.regions| ==> t.regions[i] == found.regions[i];
    if MovesAnAmbiguousRegion(found.regions, previous.regions, found.ambiguous) {
      AmbiguousMoveClashes(previous, found);
    }
    if Distinct(found.regions, RegionId) && !Distinct(t.regions, RegionId) {
      DistinctIdsHaveDistinctKeys(found.regions);
      PreservedDistinct(found, previous, found.ambiguous);
      var a, b := RepeatedIdClashes(t.regions);
      ClashMovesAmbiguous(previous, found, a, b);
    }
  }

  lemma AmbiguousMoveClashes(previous: Snapshot, found: Topology)
    requires MovesAnAmbiguousRegion(found.regions, previous.regions, found.ambiguous)
    ensures !Distinct(Preserved(found, previous, found.ambiguous).regions, RegionId)
  {
    var i, j :| 0 <= i < |found.regions| && 0 <= j < |previous.regions|
                && IsMove(found.regions[i], previous.regions[j]) && previous.regions[j].countryId in found.ambiguous;
    var a, b := RegionKey(found.regions[i]), RegionKey(previous.regions[j]);
    assert HasKey(found.regions, RegionKey, a) && HasKey(previous.regions, RegionKey, b);
    PreservedRegionKeys(found, previous, found.ambiguous, a);
    PreservedRegionKeys(found, previous, found.ambiguous, b);
    ClashingKeysRepeatAnId(Preserved(found, previous, found.ambiguous).regions, a, b);
  }

  lemma ClashMovesAmbiguous(previous: Snapshot, found: Topology, a: (string, string), b: (string, string))
    requires Distinct(previous.regions, RegionId) && Distinct(found.regions, RegionId)
    requires Clashes(Preserved(found, previous, found.ambiguous).regions, a, b)
    ensures MovesAnAmbiguousRegion(found.regions, previous.regions, found.ambiguous)
  {
    PreservedRegionKeys(found, previous, found.ambiguous, a);
    PreservedRegionKeys(found, previous, found.ambiguous, b);
    if Clashes(previous.regions, a, b) {
      ClashingKeysRepeatAnId(previous.regions, a, b);
    } else if Clashes(found.regions, a, b) {
      ClashingKeysRepeatAnId(found.regions, a, b);
    } else if HasKey(found.regions, RegionKey, a) {
      KeysMove(found.regions, previous.regions, a, b);
    } else {
      KeysMove(found.regions, previous.regions, b, a);
    }
  }

  // Runs.

  datatype TopologyOp =
    | Refresh(found: Topology, pages: Pages, now: int)
    | Probe(found: Topology, pages: Pages)
    | Update(op: CatalogRuns.Op, notice: Option<string>)

  /** What is found is well formed, and its notices are on pages that were read. */
  predicate IsCrawl(found: Topology) {
    && TopologyWellFormed(found.countries, found.regions)
    && NoticesWellFormed(found.notices) && NoticesRead(found)
  }

  predicate Genuine(op: TopologyOp) {
    match op
    case Refresh(found, pages, _) => IsCrawl(found) && PagesParsed(pages)
    case Probe(found, pages) => IsCrawl(found) && PagesParsed(pages)
    case Update(op, _) => CatalogRuns.Genuine(op)
  }

  /** An update of the catalog; a page that is applied also sets its notice. */
  function Updated(s: State, op: CatalogRuns.Op, notice: Option<string>): State {
    var next := s.(db := CatalogRuns.Step(s.db, op));
    if op.Apply? && !Refused(s.db, op.source, op.page, op.authoritative)
    then next.(notices := WithNotice(s.notices, op.source, notice),
               snapshot := WithSnapshotNotice(s.snapshot, op.source, notice))
    else next
  }

  /** A fetched page that is refused changes nothing; any other sets its notice in memory and in the
      store, and no other notice. An update of another kind sets none. */
  lemma UpdatesSetNotices(s: State, op: CatalogRuns.Op, notice: Option<string>, place: NoticePlace)
    requires Sound(s) && CatalogRuns.Genuine(op) && WellFormed(PlaceSource(place))
    ensures var after := Updated(s, op, notice);
            if op.Apply? && op.page == [] && !op.authoritative && ActiveFrom(s.db.configs, op.source) != {}
            then after == s
            else
              var sets := op.Apply? && PlaceSource(place) == op.source;
              && Shown(after.snapshot, place) == (if sets then notice else Shown(s.snapshot, place))
              && StoredText(after.notices, place) == (if sets then notice else StoredText(s.notices, place))
  {
    if op.Apply? {
      CatalogRuns.AppliesOrRefuses(s.db, op.source, op.url, op.page, op.authoritative, op.now);
      FetchAgrees(s.snapshot, s.notices, op.source, notice, place);
    }
  }

  /** A failing refresh or probe changes nothing. */
  ghost function Step(s: State, op: TopologyOp): State {
    match op
    case Refresh(found, pages, now) =>
      var result := Refreshed(s, found, pages, now);
      if result.Success? then result.value.0 else s
    case Probe(found, pages) =>
      var result := Probed(s, found, pages);
      if result.Success? then result.value.0 else s
    case Update(op, notice) => Updated(s, op, notice)
  }

  ghost function After(ops: seq<TopologyOp>): State {
    if ops == [] then State(Db(map[], map[], map[], map[]), [], [], map[], Snapshot([], [], [], {}))
    else Step(After(ops[..|ops| - 1]), ops[|ops| - 1])
  }

  predicate AllGenuine(ops: seq<TopologyOp>) {
    forall i :: 0 <= i < |ops| ==> Genuine(ops[i])
  }

  /** The snapshot shows the stored topology, and it is storable. */
  ghost predicate Synced(s: State) {
    && Sound(s) && CanStore(s.countries, s.regions)
    && s.snapshot.countries == s.countries && s.snapshot.regions == s.regions
    && NoticesWellFormed(s.snapshot.notices) && NoticesDistinct(s.snapshot.notices)
  }

  lemma RefreshKeepsSync(s: State, found: Topology, pages: Pages, now: int)
    requires Synced(s) && Genuine(Refresh(found, pages, now))
    ensures Synced(Step(s, Refresh(found, pages, now)))
  {
    if Refreshed(s, found, pages, now).Success? {
      var t := Preserved(found, s.snapshot, found.ambiguous);
      RefreshLeavesOnlyCurrentSources(s, found, pages, now);
      PreservedNoticesWellFormed(found, s.snapshot, found.ambiguous);
      SnapshotNoticesWellFormed(s.snapshot, t);
      SnapshotNoticesDistinct(s.snapshot, t);
    }
  }

  lemma ProbeKeepsSync(s: State, found: Topology, pages: Pages)
    requires Synced(s) && Genuine(Probe(found, pages))
    ensures Synced(Step(s, Probe(found, pages)))
  {
    if Probed(s, found, pages).Success? {
      var preserved := Preserved(found, s.snapshot, found.ambiguous);
      ProbeOnlyAdds(s, found, pages, Source("1", None));
      PreservedNoticesWellFormed(found, s.snapshot, found.ambiguous);
      PutNoticesWellFormed(s.snapshot.notices, preserved.notices);
      SnapshotNoticesWellFormed(s.snapshot, MergedProbe(s.snapshot, preserved));
      SnapshotNoticesDistinct(s.snapshot, MergedProbe(s.snapshot, preserved));
    }
  }

  lemma UpdateKeepsSync(s: State, op: CatalogRuns.Op, notice: Option<string>)
    requires Synced(s) && CatalogRuns.Genuine(op)
    ensures Synced(Step(s, Update(op, notice)))
  {
    CatalogRuns.StepConsistent(s.db, op);
    if op.Apply? {
      FetchAgrees(s.snapshot, s.notices, op.source, notice, (op.source.fid, op.source.gid));
    }
  }

  /** After any refreshes, probes and catalog updates the snapshot shows the stored topology. */
  lemma {:induction false} RunsStaySynced(ops: seq<TopologyOp>)
    requires AllGenuine(ops)
    ensures Synced(After(ops))
  {
    if ops != [] {
      RunsStaySynced(ops[..|ops| - 1]);
      var s := After(ops[..|ops| - 1]);
      match ops[|ops| - 1]
      case Refresh(found, pages, now) => RefreshKeepsSync(s, found, pages, now);
      case Probe(found, pages) => ProbeKeepsSync(s, found, pages);
      case Update(op, notice) => UpdateKeepsSync(s, op, notice);
    }
  }

  /** Nothing is found although something is known: a stored country, or an active config. */
  ghost predicate FindsNothing(s: State, found: Topology) {
    found.countries == [] && (s.countries != [] || exists id :: IsActive(s.db.configs, id))
  }

  lemma RefusesExactly(s: State, found: Topology)
    ensures RefusesEmpty(s, found) <==> FindsNothing(s, found)
  {
    if id :| IsActive(s.db.configs, id) {
      assert s.db.configs[id].source in KnownCatalogTargets(s.db.configs);
    }
    if target :| target in KnownCatalogTargets(s.db.configs) {
      var id :| id in s.db.configs && s.db.configs[id].state == Active && s.db.configs[id].source == target;
      assert IsActive(s.db.configs, id);
    }
  }

  /** In every run a probe fails exactly if it finds nothing while something is known, or finds a
      region id under another country than the snapshot holds it, or under two countries. */
  lemma ProbeFailsExactly(ops: seq<TopologyOp>, found: Topology, pages: Pages)
    requires AllGenuine(ops)
    ensures var s := After(ops);
            Probed(s, found, pages).Failure?
            <==> || FindsNothing(s, found)
                 || MovesARegion(found.regions, s.snapshot.regions) || MovesARegion(found.regions, found.regions)
  {
    RunsStaySynced(ops);
    ProbeIsStorableExactly(After(ops).snapshot, found);
    RefusesExactly(After(ops), found);
  }

  /** In every run a refresh fails exactly if it finds nothing while something is known, or finds an
      id twice, or finds a region id under another country than an ambiguous country holds it. */
  lemma RefreshFailsExactly(ops: seq<TopologyOp>, found: Topology, pages: Pages, now: int)
    requires AllGenuine(ops)
    ensures var s := After(ops);
            Refreshed(s, found, pages, now).Failure?
            <==> || FindsNothing(s, found) || !CanStore(found.countries, found.regions)
                 || MovesAnAmbiguousRegion(found.regions, s.snapshot.regions, found.ambiguous)
  {
    RunsStaySynced(ops);
    RefreshIsStorableExactly(After(ops).snapshot, found);
    RefusesExactly(After(ops), found);
  }

  // Concrete failures: a region that moves from the first country to the second.

  function Crawl(country: string, ambiguous: seq<string>): Topology {
    Topology([Country("1", "A"), Country("2", "B")], [Region(country, "5", "R", None)], [], {}, ambiguous)
  }

  lemma CrawlsAreGenuine(country: string, ambiguous: seq<string>)
    requires country == "1" || country == "2"
    ensures TopologyWellFormed(Crawl(country, ambiguous).countries, Crawl(country, ambiguous).regions)
    ensures CanStore(Crawl(country, ambiguous).countries, Crawl(country, ambiguous).regions)
  {
    var t := Crawl(country, ambiguous);
    assert CountryKey(t.countries[0]) == "1" && CountryKey(t.countries[1]) == "2";
  }

  /** A refresh without ambiguous countries shows what it found. */
  lemma UnambiguousRefreshShowsTheFound(s: State, found: Topology, now: int)
    requires found.ambiguous == []
    ensures Refreshed(s, found, map[], now).Success? ==>
              Step(s, Refresh(found, map[], now)).snapshot.regions == found.regions
  {
    assert Preserved(found, s.snapshot, found.ambiguous) == found;
  }

  lemma OneStep(op: TopologyOp)
    ensures After([op]) == Step(After([]), op)
  {
    assert [op][..0] == [];
  }

  lemma FirstRefreshIsStored(found: Topology, now: int)
    requires Genuine(Refresh(found, map[], now)) && CanStore(found.countries, found.regions) && found.ambiguous == []
    ensures AllGenuine([Refresh(found, map[], now)])
    ensures After([Refresh(found, map[], now)]).snapshot.regions == found.regions
  {
    var nothing: seq<TopologyOp> := [];
    RefreshFailsExactly(nothing, found, map[], now);
    OneStep(Refresh(found, map[], now));
    UnambiguousRefreshShowsTheFound(After(nothing), found, now);
  }

  lemma FirstCrawlIsStored(now: int) returns (ops: seq<TopologyOp>)
    ensures AllGenuine(ops) && After(ops).snapshot.regions == [Region("1", "5", "R", None)]
  {
    CrawlsAreGenuine("1", []);
    FirstRefreshIsStored(Crawl("1", []), now);
    ops := [Refresh(Crawl("1", []), map[], now)];
  }

  /** After a crawl that found the region under the first country, a probe that finds it under the
      second fails, though what it found could be stored. So does a full refresh, if the first
      country is ambiguous this time. */
  lemma MovedRegionBreaksAProbe(now: int) returns (ops: seq<TopologyOp>)
    ensures AllGenuine(ops) && CanStore(Crawl("2", []).countries, Crawl("2", []).regions)
    ensures Probed(After(ops), Crawl("2", []), map[]) == Failure(DuplicateIds)
    ensures Refreshed(After(ops), Crawl("2", ["1"]), map[], now) == Failure(DuplicateIds)
  {
    ops := FirstCrawlIsStored(now);
    CrawlsAreGenuine("2", []);
    var s := After(ops);
    assert IsMove(Crawl("2", []).regions[0], s.snapshot.regions[0]);
    assert IsMove(Crawl("2", ["1"]).regions[0], s.snapshot.regions[0]) && "1" in ["1"];
    ProbeFailsExactly(ops, Crawl("2", []), map[]);
    RefreshFailsExactly(ops, Crawl("2", ["1"]), map[], now);
  }

  // A notice that vanishes.

  const ROOT := Source("1", None)

  const ROOT_PLACE := ("1", None)

  function QuietCrawl(): Topology {
    Topology([Country("1", "A")], [], [], {UrlKey(ROOT)}, [])
  }

  function FetchWithNotice(now: int): TopologyOp {
    Update(CatalogRuns.Apply(ROOT, "", [], true, now), Some("sold out"))
  }

  lemma QuietRefresh(s: State, now: int)
    requires Synced(s)
    ensures Genuine(Refresh(QuietCrawl(), map[], now))
    ensures Refreshed(s, QuietCrawl(), map[], now).Success?
    ensures var after := Step(s, Refresh(QuietCrawl(), map[], now));
            ROOT in TaskKeys(after.countries, after.regions)
            && ROOT in TaskKeys(after.snapshot.countries, after.snapshot.regions)
  {
    var found := QuietCrawl();
    assert Preserved(found, s.snapshot, found.ambiguous) == found;
    assert found.countries[0] in found.countries;
  }

  /** The page is fetched with a notice. */
  lemma FetchedNotice(s: State, now: int)
    requires Synced(s)
    ensures Genuine(FetchWithNotice(now))
    ensures var after := Step(s, FetchWithNotice(now));
            && after.snapshot.countries == s.snapshot.countries && after.snapshot.regions == s.snapshot.regions
            && Shown(after.snapshot, ROOT_PLACE) == StoredText(after.notices, ROOT_PLACE) == Some("sold out")
  {
    FetchAgrees(s.snapshot, s.notices, ROOT, Some("sold out"), ROOT_PLACE);
  }

  /** A refresh that reads the page without a notice takes it out of the store only. */
  lemma NoticeVanishes(s: State, now: int)
    requires Synced(s) && ROOT in TaskKeys(s.snapshot.countries, s.snapshot.regions)
    requires Shown(s.snapshot, ROOT_PLACE) == StoredText(s.notices, ROOT_PLACE) == Some("sold out")
    ensures var after := Step(s, Refresh(QuietCrawl(), map[], now));
            Shown(after.snapshot, ROOT_PLACE) == Some("sold out") && StoredText(after.notices, ROOT_PLACE) == None
  {
    hide Refreshed;
    QuietRefresh(s, now);
    RefreshTexts(s, QuietCrawl(), map[], now, ROOT_PLACE);
  }

  /** A probe stores what memory shows. */
  lemma ProbeStoresAgain(s: State)
    requires Synced(s) && ROOT in TaskKeys(s.snapshot.countries, s.snapshot.regions)
    ensures Probed(s, QuietCrawl(), map[]).Success?
    ensures Agree(Probed(s, QuietCrawl(), map[]).value.0, ROOT_PLACE)
  {
    ProbeIsStorableExactly(s.snapshot, QuietCrawl());
    MergedTargets(s.snapshot, Preserved(QuietCrawl(), s.snapshot, []), ROOT);
    ProbeAgreesExactly(s, QuietCrawl(), map[], ROOT_PLACE);
  }

  /** A country page is fetched with a notice, and the next refresh reads the page without one: the
      stored notice is gone, memory still shows it, and a probe makes the two the same again. */
  lemma VanishedNoticeStaysInMemory(now: int) returns (ops: seq<TopologyOp>)
    ensures AllGenuine(ops)
    ensures Shown(After(ops).snapshot, ROOT_PLACE) == Some("sold out")
    ensures StoredText(After(ops).notices, ROOT_PLACE) == None
    ensures Probed(After(ops), QuietCrawl(), map[]).Success?
    ensures Agree(Probed(After(ops), QuietCrawl(), map[]).value.0, ROOT_PLACE)
  {
    hide Prefetched, CollectChanges, Step, Refreshed, Probed;
    var refresh := Refresh(QuietCrawl(), map[], now);
    var listed, fetched := [refresh], [refresh, FetchWithNotice(now)];
    ops := [refresh, FetchWithNotice(now), refresh];
    assert fetched[..1] == listed && ops[..2] == fetched && listed[..0] == [];
    RunsStaySynced([]);
    QuietRefresh(After([]), now);
    RunsStaySynced(listed);
    FetchedNotice(After(listed), now);
    RunsStaySynced(fetched);
    NoticeVanishes(After(fetched), now);
    QuietRefresh(After(fetched), now);
    RunsStaySynced(ops);
    ProbeStoresAgain(After(ops));
  }

  // An added region with a notice.

  const REGION := Source("1", Some("5"))

  const REGION_PLACE := ("1", Some("5"))

  function RegionCrawl(): Topology {
    Topology([Country("1", "A")], [Region("1", "5", "R", None)], [], {UrlKey(ROOT)}, [])
  }

  function RegionPage(now: int): Pages {
    map[REGION := Page("u", [], Some("x"), true, now)]
  }

  lemma RegionCrawlIsGenuine(now: int)
    ensures IsCrawl(RegionCrawl()) && ReadsCountryPages(RegionCrawl()) && PagesParsed(RegionPage(now))
    ensures CanStore(RegionCrawl().countries, RegionCrawl().regions)
    ensures REGION in TaskKeys(RegionCrawl().countries, RegionCrawl().regions)
  {
    var found := RegionCrawl();
    assert found.countries[0] in found.countries && found.regions[0] in found.regions;
    assert RegionSource(found.regions[0]) == REGION;
  }

  /** From nothing, a refresh adds the region and prefetches its page. */
  lemma RegionIsAdded(now: int)
    ensures var s := After([]);
            Refreshed(s, RegionCrawl(), RegionPage(now), now).Success?
            && var (after, report) := Refreshed(s, RegionCrawl(), RegionPage(now), now).value;
            && UrlKey(REGION) !in report.prefetchFailures
            && after.countries == RegionCrawl().countries && after.regions == RegionCrawl().regions
            && after.snapshot.initializedKeys == {UrlKey(ROOT)}
  {
    hide Prefetched, CollectChanges, Retired;
    var s, found := After([]), RegionCrawl();
    RunsStaySynced([]);
    RegionCrawlIsGenuine(now);
    RefreshFailsExactly([], found, RegionPage(now), now);
    assert Preserved(found, s.snapshot, found.ambiguous) == found;
    var merged := MergedProbe(s.snapshot, found);
    var removed := RemovedTargets(s, found.countries, found.regions);
    OrderIsWellFormed(s, found);
    AuthoritativePagesApply(Retired(s.db, removed, now), StoredAfter(s.notices, found),
      AddedOrder(s.snapshot, merged.countries, merged.regions), RegionPage(now), REGION);
  }

  /** Its notice is stored, and memory shows none. */
  lemma RegionTexts(now: int)
    requires Refreshed(After([]), RegionCrawl(), RegionPage(now), now).Success?
    ensures var after := Refreshed(After([]), RegionCrawl(), RegionPage(now), now).value.0;
            Shown(after.snapshot, REGION_PLACE) == None && StoredText(after.notices, REGION_PLACE) == Some("x")
            && !Agree(after, REGION_PLACE)
  {
    hide Refreshed;
    RegionCrawlIsGenuine(now);
    RegionIsAdded(now);
    RunsStaySynced([]);
    RefreshTexts(After([]), RegionCrawl(), RegionPage(now), now, REGION_PLACE);
  }

  function FetchOfRegion(notice: Option<string>, now: int): TopologyOp {
    Update(CatalogRuns.Apply(REGION, "u", [], true, now), notice)
  }

  lemma FetchRepairs(s: State, notice: Option<string>, now: int)
    ensures Agree(Step(s, FetchOfRegion(notice, now)), REGION_PLACE)
  {
    FetchAgrees(s.snapshot, s.notices, REGION, notice, REGION_PLACE);
  }

  /** A refresh adds a region whose page has a notice: the notice is stored, memory does not show it,
      and a probe leaves it at that. A fetch of the page through the queue makes the two the same. */
  lemma AddedRegionGoesApart(now: int) returns (ops: seq<TopologyOp>)
    ensures AllGenuine(ops) && REGION in TaskKeys(After(ops).countries, After(ops).regions)
    ensures Shown(After(ops).snapshot, REGION_PLACE) == None
    ensures StoredText(After(ops).notices, REGION_PLACE) == Some("x")
    ensures Probed(After(ops), RegionCrawl(), map[]).Success?
    ensures !Agree(Probed(After(ops), RegionCrawl(), map[]).value.0, REGION_PLACE)
    ensures forall notice :: Agree(Step(After(ops), FetchOfRegion(notice, now)), REGION_PLACE)
  {
    hide Refreshed, Probed, Sound, CanStore, Shown, StoredText, TextAt;
    var found := RegionCrawl();
    var refresh := Refresh(found, RegionPage(now), now);
    ops := [refresh];
    RegionCrawlIsGenuine(now);
    RegionIsAdded(now);
    OneStep(refresh);
    RunsStaySynced([]);
    RegionTexts(now);
    var s := After(ops);
    RunsStaySynced(ops);
    RegionStaysApart(ops);
    forall notice
      ensures Agree(Step(s, FetchOfRegion(notice, now)), REGION_PLACE)
    {
      FetchRepairs(s, notice, now);
    }
  }

  lemma RegionStaysApart(ops: seq<TopologyOp>)
    requires AllGenuine(ops)
    requires var s := After(ops);
             && s.snapshot.countries == RegionCrawl().countries && s.snapshot.regions == RegionCrawl().regions
             && s.snapshot.initializedKeys == {UrlKey(ROOT)} && !Agree(s, REGION_PLACE)
    ensures Probed(After(ops), RegionCrawl(), map[]).Success?
    ensures !Agree(Probed(After(ops), RegionCrawl(), map[]).value.0, REGION_PLACE)
  {
    var s, found := After(ops), RegionCrawl();
    RunsStaySynced(ops);
    RegionCrawlIsGenuine(0);
    ProbeFailsExactly(ops, found, map[]);
    MergedTargets(s.snapshot, Preserved(found, s.snapshot, []), REGION);
    RegionsAreNotRead(found, REGION_PLACE);
    UrlKeyCollisions(REGION, ROOT);
    ProbeAgreesExactly(s, found, map[], REGION_PLACE);
  }
}
