/** Restock notices at a config's first stock: who waits on a run, what a poll compares, and when
    the text of a fallback exists. */
module FirstStock {
  import opened Wrappers
  import opened Sources
  import opened CatalogStore
  import opened CatalogLifecycle
  import opened CatalogDates
  import opened LifecycleDelivery
  import FetchQueue
  import FetchQueueRuns

  // Who counts as waiting on the run.

  /** While a worker holds a task, the users that the run reads as waiting are exactly those whose
      poller has an unanswered request for the task. */
  lemma WaitersAreTheJoinedPollers(t: FetchQueueRuns.System, w: nat, key: FetchQueue.TaskKey, user: string)
    requires FetchQueueRuns.Reachable(t) && w < |t.workers| && t.workers[w].Holds(key)
    ensures key in t.queue.tasks && |t.requests| == |t.fates|
    ensures user in t.queue.tasks[key].pollerWaiters
            <==> exists id :: 0 <= id < |t.requests| && t.requests[id].key == key && t.fates[id].Waiting?
                              && t.requests[id].pollerUser == Some(user)
  {
    FetchQueueRuns.ExclusiveOwnership(t, w, key);
    FetchQueueRuns.InvariantHolds(t);
    var entry := t.queue.tasks[key];
    assert FetchQueueRuns.Summarizes(entry);
    assert FetchQueueRuns.Placed(t, entry.joiners, FetchQueueRuns.Waiting);
    if user in entry.pollerWaiters {
      var i :| 0 <= i < |entry.joiners| && entry.joiners[i].request.pollerUser == Some(user);
      assert t.requests[entry.joiners[i].id] == entry.joiners[i].request;
    }
    if id :| 0 <= id < |t.requests| && t.requests[id].key == key && t.fates[id].Waiting?
             && t.requests[id].pollerUser == Some(user) {
      assert FetchQueueRuns.FateFound(t, id);
      var i :| 0 <= i < |entry.joiners| && entry.joiners[i].id == id;
      assert entry.joiners[i].request == t.requests[id];
    }
  }

  /** A run tells of lifecycle events exactly if one of its reasons may also use the cache. */
  predicate ShouldEmitLifecycleNotify(counts: map<string, nat>) {
    exists reason :: reason in counts && reason in {"manual_refresh", "auto_refresh", "poller_due", "discovery_due"}
  }

  lemma NotifyingReasonsHaveWindows(counts: map<string, nat>)
    ensures ShouldEmitLifecycleNotify(counts) <==> FetchQueue.FreshnessWindow(counts).Some?
  {
    if ShouldEmitLifecycleNotify(counts) {
      var reason :| reason in counts && reason in {"manual_refresh", "auto_refresh", "poller_due", "discovery_due"};
      assert FetchQueue.ReasonWindow(reason).Some?;
    }
  }

  /** What a run sends, if its reasons let it notify: `capacity` deliveries succeed. */
  function SentByRun(ctx: Context, reasons: map<string, nat>, capacity: nat): seq<Notice> {
    if ShouldEmitLifecycleNotify(reasons) then SentOf(ctx, Plan(ctx), capacity) else []
  }

  method NotifyAfterApply(outbox: Outbox, ctx: Context, reasons: map<string, nat>) returns (outcome: Outcome)
    requires outbox.sent == []
    modifies outbox
    ensures outbox.sent == SentByRun(ctx, reasons, outbox.capacity)
    ensures outcome == if ShouldEmitLifecycleNotify(reasons) then OutcomeOf(ctx, Plan(ctx), outbox.capacity)
                       else Complete
  {
    outcome := Complete;
    if ShouldEmitLifecycleNotify(reasons) && (ctx.listedEvents != [] || ctx.delisted != []) {
      outcome := outbox.NotifyLifecycleEvents(ctx);
    } else {
      NothingPlanned(ctx);
    }
  }

  lemma NothingPlanned(ctx: Context)
    ensures ctx.listedEvents == [] && ctx.delisted == [] ==> Plan(ctx) == []
  {
    if ctx.listedEvents == [] && ctx.delisted == [] {
      NothingToTell(ctx, ctx.scope);
      NothingToTell(ctx, ctx.monitored);
    }
  }

  // The poller's own comparison.

  datatype Change = Change(id: string, restock: bool, config: bool)

  /** The change of one config, if there is any; a config that the poller had not read before, or
      that is gone, has none. */
  function ChangeOf(before: Configs, after: Configs, id: string): seq<Change> {
    if id !in before || id !in after then []
    else
      var restock := IsRestock(before[id].quantity, after[id].quantity);
      var config := before[id].digest != after[id].digest;
      if restock || config then [Change(id, restock, config)] else []
  }

  /** Each config is read again on its own, so `afters` gives the rows at each re-read. */
  function Changes(before: Configs, afters: seq<Configs>, ids: seq<string>): seq<Change>
    requires |afters| == |ids|
  {
    if ids == [] then []
    else
      var n := |ids| - 1;
      Changes(before, afters[..n], ids[..n]) + ChangeOf(before, afters[n], ids[n])
  }

  method ComparePolledConfigs(before: Configs, afters: seq<Configs>, ids: seq<string>) returns (changes: seq<Change>)
    requires |afters| == |ids|
    ensures changes == Changes(before, afters, ids)
  {
    changes := [];
    for i := 0 to |ids|
      invariant changes == Changes(before, afters[..i], ids[..i])
    {
      var id, after := ids[i], afters[i];
      assert ids[..i + 1][..i] == ids[..i] && afters[..i + 1][..i] == afters[..i];
      if id !in after {
        continue;
      }
      if id in before {
        var restock := before[id].quantity == 0 && after[id].quantity > 0;
        var config := before[id].digest != after[id].digest;
        if restock || config {
          changes := changes + [Change(id, restock, config)];
        }
      }
    }
    assert ids[..|ids|] == ids && afters[..|ids|] == afters;
  }

  function RestocksOf(changes: seq<Change>, id: string): nat {
    if changes == [] then 0
    else
      var last := changes[|changes| - 1];
      RestocksOf(changes[..|changes| - 1], id) + (if last.id == id && last.restock then 1 else 0)
  }

  predicate SeesRestock(before: Configs, after: Configs, id: string) {
    id in before && id in after && IsRestock(before[id].quantity, after[id].quantity)
  }

  lemma OneMoreChange(before: Configs, after: Configs, id: string, changes: seq<Change>, polled: string)
    ensures RestocksOf(changes + ChangeOf(before, after, polled), id)
            == RestocksOf(changes, id) + (if polled == id && SeesRestock(before, after, id) then 1 else 0)
  {
    var more := ChangeOf(before, after, polled);
    if more == [] {
      assert changes + more == changes;
    } else {
      assert (changes + more)[..|changes|] == changes;
    }
  }

  lemma {:induction false} NoChange(before: Configs, afters: seq<Configs>, ids: seq<string>, id: string)
    requires |afters| == |ids| && id !in ids
    ensures RestocksOf(Changes(before, afters, ids), id) == 0
  {
    if ids != [] {
      var n := |ids| - 1;
      NoChange(before, afters[..n], ids[..n], id);
      OneMoreChange(before, afters[n], id, Changes(before, afters[..n], ids[..n]), ids[n]);
    }
  }

  /** A poll tells of a restock once exactly if its row stood at zero before and has stock when that
      config is read again. */
  lemma {:induction false} ChangeCount(before: Configs, afters: seq<Configs>, ids: seq<string>, i: nat)
    requires NoRepeats(ids) && |afters| == |ids| && i < |ids|
    ensures RestocksOf(Changes(before, afters, ids), ids[i]) == if SeesRestock(before, afters[i], ids[i]) then 1 else 0
  {
    var n := |ids| - 1;
    OneMoreChange(before, afters[n], ids[i], Changes(before, afters[..n], ids[..n]), ids[n]);
    if i < n {
      ChangeCount(before, afters[..n], ids[..n], i);
    } else {
      NoChange(before, afters[..n], ids[..n], ids[n]);
    }
  }

  /** A poll reports a change for the i-th config: its stock went from zero to some, or its digest is
      another one. */
  predicate IsChangeAt(before: Configs, afters: seq<Configs>, ids: seq<string>, i: nat, c: Change)
    requires |afters| == |ids| && i < |ids|
  {
    && ids[i] == c.id && c.id in before && c.id in afters[i]
    && (c.restock <==> before[c.id].quantity == 0 && afters[i][c.id].quantity > 0)
    && (c.config <==> before[c.id].digest != afters[i][c.id].digest)
    && (c.restock || c.config)
  }

  ghost predicate IsChange(before: Configs, afters: seq<Configs>, ids: seq<string>, c: Change)
    requires |afters| == |ids|
  {
    exists i :: 0 <= i < |ids| && IsChangeAt(before, afters, ids, i, c)
  }

  /** The reported changes are exactly those. */
  lemma {:induction false} ChangesAreThese(before: Configs, afters: seq<Configs>, ids: seq<string>, c: Change)
    requires |afters| == |ids|
    ensures c in Changes(before, afters, ids) <==> IsChange(before, afters, ids, c)
  {
    if ids != [] {
      var n := |ids| - 1;
      ChangesAreThese(before, afters[..n], ids[..n], c);
      assert forall i :: 0 <= i < n ==>
               (IsChangeAt(before, afters[..n], ids[..n], i, c) <==> IsChangeAt(before, afters, ids, i, c));
      assert c in ChangeOf(before, afters[n], ids[n]) <==> IsChangeAt(before, afters, ids, n, c);
    }
  }

  // The texts of fallbacks.

  /** The last row of a page with an id. */
  function LastRowOf(page: seq<FetchedConfig>, id: string): (i: nat)
    requires id in PageIds(page)
    ensures i < |page| && page[i].id == id && forall j :: i < j < |page| ==> page[j].id != id
  {
    PageStep(page, id);
    var n := |page| - 1;
    if page[n].id == id then n else LastRowOf(page[..n], id)
  }

  predicate EndsInStock(page: seq<FetchedConfig>, id: string) {
    id in PageIds(page) && page[LastRowOf(page, id)].quantity > 0
  }

  /** Right after the apply a config that is told of has a row, and a fallback text built from it
      exists exactly if its last row on the page is in stock. */
  lemma TextExistsExactly(db: Db, source: Source, url: string, page: seq<FetchedConfig>, now: int, id: string)
    requires Consistent(db) && ParsedFrom(page, source) && id in ResultOf(db, source, page, now).listedEvents
    ensures var rows := Applied(db, source, url, page, now).configs;
            id in rows && (IsRestock(0, rows[id].quantity) <==> EndsInStock(page, id))
  {
    ListedEventMembers(db.configs, ResultOf(db, source, page, now).listed, page, id);
    var i :| 0 <= i < |page| && page[i].id == id && page[i].quantity > 0;
    AppliedRows(db, source, url, page, now, id);
    LastRowWins(db.configs, page, now, LastRowOf(page, id));
  }

  /** So a run that loads its rows right after its apply has all the texts it needs exactly if every
      config that it means to tell someone of ends the page in stock. */
  lemma AllTextsExistExactly(ctx: Context, db: Db, source: Source, url: string, page: seq<FetchedConfig>, now: int)
    requires Consistent(db) && ParsedFrom(page, source)
    requires ctx.rows == Applied(db, source, url, page, now).configs
    requires ctx.listedEvents == ResultOf(db, source, page, now).listedEvents
    ensures RestocksHaveStock(ctx) <==> forall user, id :: Tells(ctx, user, id) ==> EndsInStock(page, id)
  {
    forall id | id in ctx.listedEvents
      ensures id in ctx.rows && (ctx.rows[id].quantity > 0 <==> EndsInStock(page, id))
    {
      TextExistsExactly(db, source, url, page, now, id);
    }
  }

  predicate DistinctPage(page: seq<FetchedConfig>) {
    forall i, j :: 0 <= i < j < |page| ==> page[i].id != page[j].id
  }

  /** With distinct ids that is always so, and every config is told of once. */
  lemma DistinctPagesAreTold(db: Db, source: Source, url: string, page: seq<FetchedConfig>, now: int, id: string)
    requires Consistent(db) && ParsedFrom(page, source) && DistinctPage(page)
    requires id in ResultOf(db, source, page, now).listedEvents
    ensures var rows := Applied(db, source, url, page, now).configs; id in rows && rows[id].quantity > 0
    ensures EndsInStock(page, id) && multiset(ResultOf(db, source, page, now).listedEvents)[id] == 1
  {
    var listed := ResultOf(db, source, page, now).listed;
    EventMultiplicity(db.configs, listed, page, id);
    DistinctIdsStockOnce(page, id);
    ListedEventMembers(db.configs, listed, page, id);
    var i :| 0 <= i < |page| && page[i].id == id && page[i].quantity > 0;
    assert LastRowOf(page, id) == i;
    TextExistsExactly(db, source, url, page, now, id);
  }

  /** A page that repeats an id, first in stock and then without, is told of and left without
      stock: there the text of the fallback does not exist. */
  lemma RepeatedIdsBreakTheFallback(source: Source, now: int)
    requires WellFormed(source)
    ensures var id := IdPrefix(source) + "x";
            var row := FetchedConfig(id, "n", "d", 5, None, source);
            var page := [row, row.(quantity := 0)];
            var db := Db(map[], map[], map[], map[]);
            && Consistent(db) && ParsedFrom(page, source)
            && id in ResultOf(db, source, page, now).listedEvents
            && id in Applied(db, source, "u", page, now).configs
            && !IsRestock(0, Applied(db, source, "u", page, now).configs[id].quantity)
  {
    var id := IdPrefix(source) + "x";
    var row := FetchedConfig(id, "n", "d", 5, None, source);
    var page := [row, row.(quantity := 0)];
    var db := Db(map[], map[], map[], map[]);
    var listed := PageIds(page) - PreviousIds(db, source);
    assert page[0].id == id && page[0].quantity > 0;
    assert id in PageIds(page) && id !in PreviousIds(db, source);
    ListedEventMembers(db.configs, listed, page, id);
    assert LastRowOf(page, id) == 1;
    TextExistsExactly(db, source, "u", page, now, id);
  }

  /** A config told of that was listed before had a row at zero stock. */
  lemma PendingRowsAreEmpty(db: Db, source: Source, page: seq<FetchedConfig>, now: int, id: string)
    requires Consistent(db) && ParsedFrom(page, source)
    requires var result := ResultOf(db, source, page, now); id in result.listedEvents && id !in result.listed
    ensures id in db.configs && db.configs[id].quantity == 0
  {
    ListedEventMembers(db.configs, ResultOf(db, source, page, now).listed, page, id);
  }
}
