/** Fetching and applying the pages of added targets, one after the other. */
module Prefetching {
  import opened Wrappers
  import opened Sources
  import opened CatalogStore
  import opened CatalogLifecycle
  import CatalogRuns

  /** A page fetched for a target, and the time at which it is applied. The page of a country is
      authoritative exactly if it lists regions. */
  datatype Page = Page(url: string, configs: seq<FetchedConfig>, notice: Option<string>, authoritative: bool, at: int)

  type Pages = map<Source, Page>

  /** The stored region notices, by url key. */
  type StoredNotices = map<string, string>

  predicate PagesParsed(pages: Pages) {
    forall target :: target in pages ==> ParsedFrom(pages[target].configs, target)
  }

  // What a country page keeps beside its regions.

  function DedupeKey(c: FetchedConfig): string {
    if c.sourcePid.Some? && c.sourcePid.value != "" then "pid:" + c.sourcePid.value else "digest:" + c.digest
  }

  function DedupeKeys(configs: seq<FetchedConfig>): set<string> {
    set c | c in configs :: DedupeKey(c)
  }

  function Unmirrored(direct: seq<FetchedConfig>, keys: set<string>): seq<FetchedConfig> {
    if direct == [] then []
    else
      var n := |direct| - 1;
      Unmirrored(direct[..n], keys) + (if DedupeKey(direct[n]) in keys then [] else [direct[n]])
  }

  method RetainCountryDirectConfigs(direct: seq<FetchedConfig>, regional: seq<FetchedConfig>)
    returns (kept: seq<FetchedConfig>)
    ensures kept == Unmirrored(direct, DedupeKeys(regional))
  {
    if direct == [] || regional == [] {
      NothingMirrored(direct);
      assert DedupeKeys([]) == {};
      return direct;
    }
    var keys := DedupeKeys(regional);
    kept := [];
    for i := 0 to |direct|
      invariant kept == Unmirrored(direct[..i], keys)
    {
      assert direct[..i + 1][..i] == direct[..i];
      if DedupeKey(direct[i]) !in keys {
        kept := kept + [direct[i]];
      }
    }
    assert direct[..|direct|] == direct;
  }

  lemma {:induction false} NothingMirrored(direct: seq<FetchedConfig>)
    ensures Unmirrored(direct, {}) == direct
  {
    if direct != [] {
      NothingMirrored(direct[..|direct| - 1]);
    }
  }

  predicate HasPid(c: FetchedConfig) {
    c.sourcePid.Some? && c.sourcePid.value != ""
  }

  /** Two configs are the same offer: they have one product id, or none and one digest. */
  predicate IsMirror(a: FetchedConfig, b: FetchedConfig) {
    (HasPid(a) <==> HasPid(b)) && (if HasPid(a) then a.sourcePid == b.sourcePid else a.digest == b.digest)
  }

  lemma MirrorsShareAKey(a: FetchedConfig, b: FetchedConfig)
    ensures DedupeKey(a) == DedupeKey(b) <==> IsMirror(a, b)
  {
    var p, d := "pid:", "digest:";
    if HasPid(a) {
      assert DedupeKey(a)[0] == 'p' && DedupeKey(a)[4..] == a.sourcePid.value;
    } else {
      assert DedupeKey(a)[0] == 'd' && DedupeKey(a)[7..] == a.digest;
    }
    if HasPid(b) {
      assert DedupeKey(b)[0] == 'p' && DedupeKey(b)[4..] == b.sourcePid.value;
    } else {
      assert DedupeKey(b)[0] == 'd' && DedupeKey(b)[7..] == b.digest;
    }
  }

  /** A country page keeps exactly those of its configs that no region page mirrors. */
  lemma {:induction false} UnmirroredMembers(direct: seq<FetchedConfig>, regional: seq<FetchedConfig>, c: FetchedConfig)
    ensures c in Unmirrored(direct, DedupeKeys(regional))
            <==> c in direct && forall r :: r in regional ==> !IsMirror(r, c)
  {
    if direct != [] {
      var n := |direct| - 1;
      assert direct == direct[..n] + [direct[n]];
      UnmirroredMembers(direct[..n], regional, c);
      if c == direct[n] {
        forall r | r in regional
          ensures DedupeKey(r) == DedupeKey(c) <==> IsMirror(r, c)
        {
          MirrorsShareAKey(r, c);
        }
      }
    }
  }

  lemma {:induction false} UnmirroredParsed(direct: seq<FetchedConfig>, keys: set<string>, source: Source)
    requires ParsedFrom(direct, source)
    ensures ParsedFrom(Unmirrored(direct, keys), source)
  {
    if direct != [] {
      UnmirroredParsed(direct[..|direct| - 1], keys, source);
    }
  }

  // The pages in order.

  /** How far the prefetch has come: the tables, the stored notices, the url keys that failed, and the
      configs of the region pages that were applied. */
  datatype Progress = Progress(db: Db, notices: StoredNotices, failed: set<string>, fetched: seq<FetchedConfig>)

  function OfCountry(configs: seq<FetchedConfig>, fid: string): seq<FetchedConfig> {
    if configs == [] then []
    else
      var n := |configs| - 1;
      OfCountry(configs[..n], fid) + (if configs[n].source.fid == fid then [configs[n]] else [])
  }

  /** The configs that are applied for a target. */
  function ConfigsFor(p: Progress, target: Source, page: Page): seq<FetchedConfig> {
    if target.gid.None? && page.authoritative
    then Unmirrored(page.configs, DedupeKeys(OfCountry(p.fetched, target.fid)))
    else page.configs
  }

  /** A country page without regions and without configs is no result at all. */
  predicate IsBlankRoot(target: Source, page: Page) {
    target.gid.None? && !page.authoritative && page.configs == []
  }

  predicate Fails(p: Progress, target: Source, pages: Pages) {
    target !in pages || IsBlankRoot(target, pages[target])
    || Refused(p.db, target, ConfigsFor(p, target, pages[target]), pages[target].authoritative)
  }

  function PageOp(p: Progress, target: Source, page: Page): CatalogRuns.Op {
    CatalogRuns.Apply(target, page.url, ConfigsFor(p, target, page), page.authoritative, page.at)
  }

  /** A page stores its notice, or removes the stored one. */
  function WithNotice(notices: StoredNotices, target: Source, notice: Option<string>): StoredNotices {
    if notice.Some? then notices[UrlKey(target) := notice.value] else notices - {UrlKey(target)}
  }

  function Advance(p: Progress, target: Source, pages: Pages): Progress {
    if Fails(p, target, pages) then p.(failed := p.failed + {UrlKey(target)})
    else
      var page := pages[target];
      p.(db := CatalogRuns.Step(p.db, PageOp(p, target, page)),
         notices := WithNotice(p.notices, target, page.notice),
         fetched := if target.gid.Some? then p.fetched + page.configs else p.fetched)
  }

  /** Applies the fetched pages in order; a missing, blank or refused page fails its target. */
  function Prefetched(db: Db, notices: StoredNotices, order: seq<Source>, pages: Pages): Progress {
    if order == [] then Progress(db, notices, {}, [])
    else Advance(Prefetched(db, notices, order[..|order| - 1], pages), order[|order| - 1], pages)
  }

  lemma ConfigsForParsed(p: Progress, target: Source, pages: Pages)
    requires PagesParsed(pages) && target in pages
    ensures ParsedFrom(ConfigsFor(p, target, pages[target]), target)
  {
    UnmirroredParsed(pages[target].configs, DedupeKeys(OfCountry(p.fetched, target.fid)), target);
  }

  lemma AdvanceActivates(p: Progress, target: Source, pages: Pages, source: Source)
    requires Consistent(p.db) && PagesParsed(pages) && WellFormed(source)
    ensures Consistent(Advance(p, target, pages).db)
    ensures source != target ==>
              ActiveFrom(Advance(p, target, pages).db.configs, source) == ActiveFrom(p.db.configs, source)
  {
    if !Fails(p, target, pages) {
      var page := pages[target];
      ConfigsForParsed(p, target, pages);
      ApplyConsistent(p.db, target, page.url, ConfigsFor(p, target, page), page.at);
      AppliedActive(p.db, target, page.url, ConfigsFor(p, target, page), page.at, source);
    }
  }

  /** Prefetching keeps the tables consistent and activates configs of the prefetched targets
      only. */
  lemma {:induction false} PrefetchActivates(
    db: Db, notices: StoredNotices, order: seq<Source>, pages: Pages, source: Source)
    requires Consistent(db) && PagesParsed(pages) && WellFormed(source)
    ensures Consistent(Prefetched(db, notices, order, pages).db)
    ensures source !in order ==>
              ActiveFrom(Prefetched(db, notices, order, pages).db.configs, source) == ActiveFrom(db.configs, source)
  {
    if order != [] {
      var n := |order| - 1;
      PrefetchActivates(db, notices, order[..n], pages, source);
      AdvanceActivates(Prefetched(db, notices, order[..n], pages), order[n], pages, source);
      assert order == order[..n] + [order[n]];
    }
  }

  lemma {:induction false} OtherNoticesStay(
    db: Db, notices: StoredNotices, order: seq<Source>, pages: Pages, key: string)
    requires forall target :: target in order ==> UrlKey(target) != key
    ensures var after := Prefetched(db, notices, order, pages).notices;
            (key in after <==> key in notices) && (key in notices ==> after[key] == notices[key])
  {
    if order != [] {
      OtherNoticesStay(db, notices, order[..|order| - 1], pages, key);
    }
  }

  lemma PrefetchConsistent(db: Db, notices: StoredNotices, order: seq<Source>, pages: Pages)
    requires Consistent(db) && PagesParsed(pages)
    ensures Consistent(Prefetched(db, notices, order, pages).db)
  {
    PrefetchActivates(db, notices, order, pages, Source("1", None));
  }

  // What is applied for a target.

  /** A target fails exactly if its page is missing, or is a country page without regions and configs, or
      would delist all active configs of the target without proof. */
  lemma FailsExactly(p: Progress, target: Source, pages: Pages)
    requires Consistent(p.db) && WellFormed(target)
    ensures Fails(p, target, pages)
            <==> || target !in pages
                 || (target.gid.None? && !pages[target].authoritative && pages[target].configs == [])
                 || (!pages[target].authoritative && pages[target].configs == []
                     && ActiveFrom(p.db.configs, target) != {})
  {
    PreviousIdsAreTheActiveOnes(p.db, target);
  }

  lemma {:induction false} OfCountryMembers(configs: seq<FetchedConfig>, fid: string, c: FetchedConfig)
    ensures c in OfCountry(configs, fid) <==> c in configs && c.source.fid == fid
  {
    if configs != [] {
      var n := |configs| - 1;
      assert configs == configs[..n] + [configs[n]];
      OfCountryMembers(configs[..n], fid, c);
    }
  }

  /** The page of a country that lists regions is applied without what the region pages of the country
      that were applied before mirror; every other page is applied whole. */
  lemma ConfigsForExactly(p: Progress, target: Source, page: Page, c: FetchedConfig)
    ensures c in ConfigsFor(p, target, page)
            <==> && c in page.configs
                 && (target.gid.None? && page.authoritative ==>
                       forall r :: r in p.fetched && r.source.fid == target.fid ==> !IsMirror(r, c))
  {
    UnmirroredMembers(page.configs, OfCountry(p.fetched, target.fid), c);
    forall r
      ensures r in OfCountry(p.fetched, target.fid) <==> r in p.fetched && r.source.fid == target.fid
    {
      OfCountryMembers(p.fetched, target.fid, r);
    }
  }

  /** The i-th page of the order is applied. */
  predicate IsApplied(db: Db, notices: StoredNotices, order: seq<Source>, pages: Pages, i: nat)
    requires i < |order|
  {
    !Fails(Prefetched(db, notices, order[..i], pages), order[i], pages)
  }

  predicate IsFetchedBy(db: Db, notices: StoredNotices, order: seq<Source>, pages: Pages, i: nat, c: FetchedConfig)
    requires i < |order|
  {
    order[i].gid.Some? && IsApplied(db, notices, order, pages, i) && c in pages[order[i]].configs
  }

  /** And what was applied before are the configs of the applied region pages. */
  lemma {:induction false} FetchedExactly(
    db: Db, notices: StoredNotices, order: seq<Source>, pages: Pages, c: FetchedConfig)
    ensures c in Prefetched(db, notices, order, pages).fetched
            <==> exists i :: 0 <= i < |order| && IsFetchedBy(db, notices, order, pages, i, c)
  {
    hide Refused, ConfigsFor, CatalogRuns.Step, PageOp;
    if order != [] {
      var n := |order| - 1;
      FetchedExactly(db, notices, order[..n], pages, c);
      forall i | 0 <= i < n
        ensures IsFetchedBy(db, notices, order[..n], pages, i, c) <==> IsFetchedBy(db, notices, order, pages, i, c)
      {
        assert order[..n][..i] == order[..i];
      }
      var before := Prefetched(db, notices, order[..n], pages);
      assert !Fails(before, order[n], pages) ==> order[n] in pages;
      assert IsFetchedBy(db, notices, order, pages, n, c)
             <==> (order[n].gid.Some? && !Fails(before, order[n], pages) && c in pages[order[n]].configs);
    }
  }
}
