/** Histories in which queue steps and catalog updates interleave, and how often a user is told of
    a restock over them. */
module StockTimeline {
  import opened Wrappers
  import opened Sources
  import opened CatalogStore
  import opened CatalogLifecycle
  import opened CatalogDates
  import opened LifecycleDelivery
  import opened FirstStock
  import CatalogRuns
  import FetchQueue
  import FetchQueueRuns

  // Histories.

  datatype Event = OfQueue(step: FetchQueueRuns.Step) | OfCatalog(op: CatalogRuns.Op)

  datatype Moment = Moment(queue: FetchQueueRuns.System, db: Db)

  predicate CanHappen(m: Moment, e: Event) {
    match e
    case OfQueue(step) => FetchQueueRuns.Enabled(m.queue, step)
    case OfCatalog(op) => CatalogRuns.Genuine(op)
  }

  function Then(m: Moment, e: Event): Moment
    requires CanHappen(m, e)
  {
    match e
    case OfQueue(step) => m.(queue := FetchQueueRuns.Next(m.queue, step))
    case OfCatalog(op) => m.(db := CatalogRuns.Step(m.db, op))
  }

  /** Moment `k` lies between the events `k - 1` and `k`. */
  datatype History = History(moments: seq<Moment>, events: seq<Event>)

  ghost predicate Valid(h: History) {
    && |h.moments| == |h.events| + 1
    && FetchQueueRuns.Initial(h.moments[0].queue) && Consistent(h.moments[0].db)
    && forall k :: 0 <= k < |h.events| ==> Follows(h, k)
  }

  predicate Follows(h: History, k: nat)
    requires k < |h.events| && k + 1 < |h.moments|
  {
    CanHappen(h.moments[k], h.events[k]) && h.moments[k + 1] == Then(h.moments[k], h.events[k])
  }

  lemma {:induction false} LeadsOneMore(
    s: FetchQueueRuns.System, steps: seq<FetchQueueRuns.Step>, t: FetchQueueRuns.System, step: FetchQueueRuns.Step)
    requires FetchQueueRuns.Leads(s, steps, t) && FetchQueueRuns.Enabled(t, step)
    ensures FetchQueueRuns.Leads(s, steps + [step], FetchQueueRuns.Next(t, step))
    decreases |steps|
  {
    if steps == [] {
      assert (steps + [step])[1..] == [];
    } else {
      LeadsOneMore(FetchQueueRuns.Next(s, steps[0]), steps[1..], t, step);
      assert (steps + [step])[1..] == steps[1..] + [step];
    }
  }

  /** The queue steps between two moments. */
  lemma {:induction false} QueueLeads(h: History, i: nat, k: nat) returns (steps: seq<FetchQueueRuns.Step>)
    requires Valid(h) && i <= k < |h.moments|
    ensures FetchQueueRuns.Leads(h.moments[i].queue, steps, h.moments[k].queue)
    decreases k - i
  {
    if i == k {
      steps := [];
    } else {
      steps := QueueLeads(h, i, k - 1);
      assert Follows(h, k - 1);
      if h.events[k - 1].OfQueue? {
        LeadsOneMore(h.moments[i].queue, steps, h.moments[k - 1].queue, h.events[k - 1].step);
        steps := steps + [h.events[k - 1].step];
      }
    }
  }

  lemma QueueIsReachable(h: History, k: nat)
    requires Valid(h) && k < |h.moments|
    ensures FetchQueueRuns.Reachable(h.moments[k].queue)
  {
    var steps := QueueLeads(h, 0, k);
  }

  lemma {:induction false} CatalogIsConsistent(h: History, k: nat)
    requires Valid(h) && k < |h.moments|
    ensures Consistent(h.moments[k].db)
  {
    if k > 0 {
      CatalogIsConsistent(h, k - 1);
      assert Follows(h, k - 1);
      if h.events[k - 1].OfCatalog? {
        CatalogRuns.StepConsistent(h.moments[k - 1].db, h.events[k - 1].op);
      }
    }
  }

  /** Rows are never deleted. */
  lemma {:induction false} RowsPersist(h: History, i: nat, k: nat, id: string)
    requires Valid(h) && i <= k < |h.moments| && id in h.moments[i].db.configs
    ensures id in h.moments[k].db.configs
    decreases k - i
  {
    if i < k {
      RowsPersist(h, i, k - 1, id);
      assert Follows(h, k - 1);
      if h.events[k - 1].OfCatalog? && h.events[k - 1].op.Apply? {
        var op := h.events[k - 1].op;
        UpsertedDates(h.moments[k - 1].db.configs, op.page, op.now, id);
      }
    }
  }

  // A run and a poll in a history.

  function TaskOf(source: Source): FetchQueue.TaskKey {
    FetchQueue.TaskKey(source.fid, source.gid)
  }

  /** A worker that fetched a page applies it as the event `applied`, reads the reasons and waiters for
      its notices at the moment `notified`, and loads the rows they show at the moment `loaded`. */
  datatype Run = Run(
    worker: nat, source: Source, url: string, page: seq<FetchedConfig>, authoritative: bool, now: int,
    applied: nat, notified: nat, loaded: nat)
  {
    function Key(): FetchQueue.TaskKey { TaskOf(source) }
  }

  ghost predicate Runs(h: History, run: Run) {
    && run.applied < run.notified <= run.loaded < |h.moments| == |h.events| + 1
    && h.events[run.applied]
       == OfCatalog(CatalogRuns.Apply(run.source, run.url, run.page, run.authoritative, run.now))
    && !Refused(h.moments[run.applied].db, run.source, run.page, run.authoritative)
    && DistinctPage(run.page)
    && Fetches(h.moments[run.applied].queue, run) && Fetches(h.moments[run.notified].queue, run)
    && Fetches(h.moments[run.loaded].queue, run)
  }

  predicate Fetches(s: FetchQueueRuns.System, run: Run) {
    run.worker < |s.workers| && s.workers[run.worker].Fetching? && s.workers[run.worker].key == run.Key()
  }

  function ResultAt(h: History, run: Run): ApplyResult
    requires run.applied < |h.moments|
  {
    ResultOf(h.moments[run.applied].db, run.source, run.page, run.now)
  }

  /** A poll reads the old rows of its configs at the moment `read`, asks for the page with the event
      `joined`, and reads each config again on its own once its request is answered. */
  datatype Poll = Poll(user: string, ids: seq<string>, read: nat, joined: nat, rereads: seq<nat>)

  predicate Polls(h: History, poll: Poll, key: FetchQueue.TaskKey) {
    && poll.read <= poll.joined < |h.events| && |h.moments| == |h.events| + 1
    && h.events[poll.joined]
       == OfQueue(FetchQueueRuns.Enqueue(FetchQueue.Request(key, "poller_due", false, Some(poll.user))))
    && NoRepeats(poll.ids) && |poll.rereads| == |poll.ids|
    && forall i :: 0 <= i < |poll.rereads| ==>
         && poll.joined < poll.rereads[i] < |h.moments|
         && RequestOf(h, poll) < |h.moments[poll.rereads[i]].queue.fates|
         && h.moments[poll.rereads[i]].queue.fates[RequestOf(h, poll)].Answered?
  }

  /** The number of the poll's request. */
  function RequestOf(h: History, poll: Poll): nat
    requires poll.joined < |h.moments|
  {
    |h.moments[poll.joined].queue.requests|
  }

  predicate PollsIfAny(h: History, poll: Option<Poll>, key: FetchQueue.TaskKey, user: string) {
    poll.Some? ==> poll.value.user == user && Polls(h, poll.value, key)
  }

  // What the user is told.

  /** Some poll of the user waits on the task at a moment. */
  ghost predicate Waits(s: FetchQueueRuns.System, key: FetchQueue.TaskKey, user: string) {
    exists q :: IsWaitingRequest(s, q, key, user)
  }

  predicate IsWaitingRequest(s: FetchQueueRuns.System, q: nat, key: FetchQueue.TaskKey, user: string) {
    && q < |s.requests| && q < |s.fates|
    && s.requests[q].key == key && s.fates[q].Waiting? && s.requests[q].pollerUser == Some(user)
  }

  /** The notices of a run are built from the result of its apply, from the task's entry, and from the
      rows at the moment it loads them. */
  predicate Describes(ctx: Context, h: History, run: Run) {
    && run.applied < |h.moments| && run.notified < |h.moments| && run.loaded < |h.moments|
    && NoRepeats(ctx.scope) && NoRepeats(ctx.monitored)
    && ctx.rows == h.moments[run.loaded].db.configs
    && ctx.listed == ResultAt(h, run).listed
    && ctx.listedEvents == ResultAt(h, run).listedEvents
    && Elements(ctx.delisted) == ResultAt(h, run).delisted
    && run.Key() in h.moments[run.notified].queue.queue.tasks
    && ctx.waiters == h.moments[run.notified].queue.queue.tasks[run.Key()].pollerWaiters
  }

  function Reasons(h: History, run: Run): map<string, nat>
    requires run.notified < |h.moments| && run.Key() in h.moments[run.notified].queue.queue.tasks
  {
    h.moments[run.notified].queue.queue.tasks[run.Key()].reasonCounts
  }

  function FallbackRestocks(ctx: Context, reasons: map<string, nat>, capacity: nat, user: string, id: string): nat {
    multiset(SentByRun(ctx, reasons, capacity))[Notice(user, id, Restock)]
  }

  function Position(ids: seq<string>, id: string): (i: nat)
    requires id in ids
    ensures i < |ids| && ids[i] == id
  {
    if ids[0] == id then 0 else Position(ids[1..], id) + 1
  }

  /** When a poll reads a config again. */
  function RereadOf(poll: Poll, id: string): nat
    requires id in poll.ids && |poll.rereads| == |poll.ids|
  {
    poll.rereads[Position(poll.ids, id)]
  }

  function RowsAtRereads(h: History, poll: Poll, key: FetchQueue.TaskKey): (rows: seq<Configs>)
    requires Polls(h, poll, key)
    ensures |rows| == |poll.ids| && forall i :: 0 <= i < |rows| ==> rows[i] == h.moments[poll.rereads[i]].db.configs
  {
    seq(|poll.rereads|, i requires 0 <= i < |poll.rereads| => h.moments[poll.rereads[i]].db.configs)
  }

  function PollerRestocks(h: History, poll: Option<Poll>, key: FetchQueue.TaskKey, id: string): nat
    requires poll.Some? ==> Polls(h, poll.value, key)
  {
    if poll.None? then 0
    else
      var before := h.moments[poll.value.read].db.configs;
      RestocksOf(Changes(before, RowsAtRereads(h, poll.value, key), poll.value.ids), id)
  }

  /** The poll compares the config, finds it at zero first and in stock when it reads it again. */
  predicate PollSees(h: History, poll: Option<Poll>, key: FetchQueue.TaskKey, id: string)
    requires poll.Some? ==> Polls(h, poll.value, key)
  {
    poll.Some? && id in poll.value.ids
    && SeesRestock(h.moments[poll.value.read].db.configs, h.moments[RereadOf(poll.value, id)].db.configs, id)
  }

  lemma PollerCount(h: History, poll: Option<Poll>, key: FetchQueue.TaskKey, id: string)
    requires poll.Some? ==> Polls(h, poll.value, key)
    ensures PollerRestocks(h, poll, key, id) == if PollSees(h, poll, key, id) then 1 else 0
  {
    if poll.Some? {
      var before, rows := h.moments[poll.value.read].db.configs, RowsAtRereads(h, poll.value, key);
      if id in poll.value.ids {
        ChangeCount(before, rows, poll.value.ids, Position(poll.value.ids, id));
      } else {
        NoChange(before, rows, poll.value.ids, id);
      }
    }
  }

  /** The run reads a user as waiting exactly if a poll of the user waits on its task. */
  lemma WaitersWait(h: History, run: Run, user: string)
    requires Valid(h) && Runs(h, run)
    ensures run.Key() in h.moments[run.notified].queue.queue.tasks
    ensures user in h.moments[run.notified].queue.queue.tasks[run.Key()].pollerWaiters
            <==> Waits(h.moments[run.notified].queue, run.Key(), user)
  {
    var s := h.moments[run.notified].queue;
    QueueIsReachable(h, run.notified);
    WaitersAreTheJoinedPollers(s, run.worker, run.Key(), user);
    if q :| 0 <= q < |s.requests| && s.requests[q].key == run.Key() && s.fates[q].Waiting?
            && s.requests[q].pollerUser == Some(user) {
      assert IsWaitingRequest(s, q, run.Key(), user);
    }
  }

  // The rows that a run loads.

  /** An update of the catalog that shows a config. */
  predicate Shows(db: Db, op: CatalogRuns.Op, id: string) {
    op.Apply? && !Refused(db, op.source, op.page, op.authoritative) && id in PageIds(op.page)
  }

  predicate ShowsAt(h: History, e: nat, id: string)
    requires e < |h.events| && e < |h.moments|
  {
    h.events[e].OfCatalog? && Shows(h.moments[e].db, h.events[e].op, id)
  }

  /** Stock changes only when a page shows the config. */
  lemma StockStep(db: Db, op: CatalogRuns.Op, id: string)
    requires Consistent(db) && CatalogRuns.Genuine(op) && id in db.configs
    ensures var after := CatalogRuns.Step(db, op).configs;
            id in after
            && after[id].quantity
               == if Shows(db, op, id) then op.page[LastRowOf(op.page, id)].quantity else db.configs[id].quantity
  {
    if op.Apply? && !Refused(db, op.source, op.page, op.authoritative) {
      AppliedRows(db, op.source, op.url, op.page, op.now, id);
      if id in PageIds(op.page) {
        LastRowWins(db.configs, op.page, op.now, LastRowOf(op.page, id));
      }
    }
  }

  /** The last update before a moment that shows a config. */
  function LastShown(h: History, from: nat, k: nat, id: string): (e: nat)
    requires from < k < |h.moments| == |h.events| + 1 && ShowsAt(h, from, id)
    ensures from <= e < k && ShowsAt(h, e, id) && forall i :: e < i < k ==> !ShowsAt(h, i, id)
  {
    if ShowsAt(h, k - 1, id) then k - 1 else LastShown(h, from, k - 1, id)
  }

  lemma ShownStock(h: History, e: nat, id: string)
    requires Valid(h) && e < |h.events| && ShowsAt(h, e, id)
    ensures var page := h.events[e].op.page;
            id in h.moments[e + 1].db.configs
            && h.moments[e + 1].db.configs[id].quantity == page[LastRowOf(page, id)].quantity
  {
    var db, op := h.moments[e].db, h.events[e].op;
    CatalogIsConsistent(h, e);
    assert Follows(h, e);
    AppliedRows(db, op.source, op.url, op.page, op.now, id);
    LastRowWins(db.configs, op.page, op.now, LastRowOf(op.page, id));
  }

  /** A row has the stock of the last row of its config on the last page that shows it. */
  lemma {:induction false} StockIsLastShown(h: History, from: nat, k: nat, id: string)
    requires Valid(h) && from < k < |h.moments| && ShowsAt(h, from, id)
    ensures var page := h.events[LastShown(h, from, k, id)].op.page;
            id in h.moments[k].db.configs
            && h.moments[k].db.configs[id].quantity == page[LastRowOf(page, id)].quantity
    decreases k
  {
    hide CatalogRuns.Step, Shows, LastRowOf;
    if ShowsAt(h, k - 1, id) {
      ShownStock(h, k - 1, id);
    } else {
      StockIsLastShown(h, from, k - 1, id);
      CatalogIsConsistent(h, k - 1);
      assert Follows(h, k - 1);
      if h.events[k - 1].OfCatalog? {
        StockStep(h.moments[k - 1].db, h.events[k - 1].op, id);
      }
    }
  }

  /** The page that decides the stock a run loads for a config it tells of. */
  function DecidingPage(h: History, run: Run, id: string): seq<FetchedConfig>
    requires run.applied < run.loaded < |h.moments| == |h.events| + 1 && ShowsAt(h, run.applied, id)
  {
    h.events[LastShown(h, run.applied, run.loaded, id)].op.page
  }

  lemma ToldIsShown(h: History, run: Run, id: string)
    requires Valid(h) && Runs(h, run) && id in ResultAt(h, run).listedEvents
    ensures ShowsAt(h, run.applied, id) && id in h.moments[run.loaded].db.configs
    ensures h.moments[run.loaded].db.configs[id].quantity > 0 <==> EndsInStock(DecidingPage(h, run, id), id)
  {
    hide CatalogRuns.Step;
    var db := h.moments[run.applied].db;
    CatalogIsConsistent(h, run.applied);
    assert Follows(h, run.applied);
    ListedEventMembers(db.configs, ResultAt(h, run).listed, run.page, id);
    var i :| 0 <= i < |run.page| && run.page[i].id == id && run.page[i].quantity > 0;
    StockIsLastShown(h, run.applied, run.loaded, id);
  }

  /** The texts of a run exist exactly if, for every config that it means to tell someone of, the last
      page that was applied before the rows were loaded and shows the config leaves it in stock. */
  lemma TextsExistByHistory(ctx: Context, h: History, run: Run)
    requires Valid(h) && Runs(h, run) && Describes(ctx, h, run)
    ensures forall id :: id in ctx.listedEvents ==> ShowsAt(h, run.applied, id)
    ensures RestocksHaveStock(ctx)
            <==> forall user, id :: Tells(ctx, user, id) ==> EndsInStock(DecidingPage(h, run, id), id)
  {
    hide CatalogRuns.Step, ResultOf, DecidingPage, EndsInStock;
    forall id | id in ctx.listedEvents
      ensures ShowsAt(h, run.applied, id) && id in ctx.rows
      ensures ctx.rows[id].quantity > 0 <==> EndsInStock(DecidingPage(h, run, id), id)
    {
      ToldIsShown(h, run, id);
    }
  }

  /** No page applied between the run's apply and its loading of the rows shows a told config without
      stock. */
  predicate NothingSellsOut(ctx: Context, h: History, run: Run)
    requires |h.moments| == |h.events| + 1 && run.loaded < |h.moments|
  {
    forall e, id :: run.applied < e < run.loaded && id in ctx.listedEvents && ShowsAt(h, e, id)
      ==> EndsInStock(h.events[e].op.page, id)
  }

  /** Then a run whose deliveries succeed sends its whole plan. */
  lemma UndisturbedRunsTellAll(ctx: Context, h: History, run: Run, capacity: nat, n: Notice)
    requires Valid(h) && Runs(h, run) && Describes(ctx, h, run) && NothingSellsOut(ctx, h, run)
    ensures RestocksHaveStock(ctx)
    ensures |Plan(ctx)| <= capacity ==>
              && SentOf(ctx, Plan(ctx), capacity) == Plan(ctx)
              && OutcomeOf(ctx, Plan(ctx), capacity) == Complete
              && !StopsBefore(ctx, capacity, n)
  {
    hide CatalogRuns.Step, ResultOf, EndsInStock, Plan;
    TextsExistByHistory(ctx, h, run);
    forall user, id | Tells(ctx, user, id)
      ensures EndsInStock(DecidingPage(h, run, id), id)
    {
      FilledByTheRun(h, run, id);
    }
    PanicsExactly(ctx, capacity);
    StopsOnlyForAReason(ctx, capacity, n);
  }

  lemma FilledByTheRun(h: History, run: Run, id: string)
    requires Valid(h) && Runs(h, run) && id in ResultAt(h, run).listedEvents
    ensures EndsInStock(run.page, id)
  {
    CatalogIsConsistent(h, run.applied);
    assert Follows(h, run.applied);
    DistinctPagesAreTold(h.moments[run.applied].db, run.source, run.url, run.page, run.now, id);
  }

  // What the fallback tells.

  /** A monitoring user is told by the fallback, unless the run did not list the config and a poll of
      the user waits on its task, or the run stops before this notice. */
  lemma FallbackCount(ctx: Context, h: History, run: Run, capacity: nat, user: string, id: string)
    requires Valid(h) && Runs(h, run) && Describes(ctx, h, run)
    requires id in ctx.listedEvents && Serves(ctx, user) && (user, id) in ctx.monitors
    ensures FallbackRestocks(ctx, Reasons(h, run), capacity, user, id)
            == if id !in ctx.listed && Waits(h.moments[run.notified].queue, run.Key(), user) then 0
               else if StopsBefore(ctx, capacity, Notice(user, id, Restock)) then 0
               else if ShouldEmitLifecycleNotify(Reasons(h, run)) then 1 else 0
    ensures id !in ctx.listed && Waits(h.moments[run.notified].queue, run.Key(), user) ==>
              !StopsBefore(ctx, capacity, Notice(user, id, Restock))
  {
    hide FetchQueueRuns.Next, ResultOf, Plan, SentOf, IsReached;
    var db := h.moments[run.applied].db;
    CatalogIsConsistent(h, run.applied);
    assert Follows(h, run.applied);
    DistinctPagesAreTold(db, run.source, run.url, run.page, run.now, id);
    RowsPersist(h, run.applied + 1, run.loaded, id);
    WaitersWait(h, run, user);
    RestockToldExactly(ctx, capacity, user, id);
    PlannedRestocks(ctx, user, id);
  }

  /** A config whose deciding page leaves it without stock is told to nobody, and a run that means to
      tell someone of it panics if its deliveries succeed. */
  lemma SoldOutIsNotTold(ctx: Context, h: History, run: Run, capacity: nat, user: string, id: string)
    requires Valid(h) && Runs(h, run) && Describes(ctx, h, run)
    requires Tells(ctx, user, id) && ShowsAt(h, run.applied, id) && !EndsInStock(DecidingPage(h, run, id), id)
    ensures StopsBefore(ctx, capacity, Notice(user, id, Restock))
    ensures FallbackRestocks(ctx, Reasons(h, run), capacity, user, id) == 0
    ensures |Plan(ctx)| <= capacity ==> OutcomeOf(ctx, Plan(ctx), capacity) == Panicked
  {
    hide CatalogRuns.Step, FetchQueueRuns.Next, ResultOf, Plan, SentOf, IsReached, OutcomeOf, EndsInStock, DecidingPage;
    ToldIsShown(h, run, id);
    StopsOnlyForAReason(ctx, capacity, Notice(user, id, Restock));
    FallbackCount(ctx, h, run, capacity, user, id);
    PanicsExactly(ctx, capacity);
  }

  /** Every restock notice of a config that the run did not list: one from the poll if it sees the
      restock, and one from the fallback unless a poll of the user waits or the run stops before it. So
      the user is told exactly once if and only if the two agree. Nothing is assumed of other catalog
      updates or of deliveries. */
  lemma RestocksTold(ctx: Context, h: History, run: Run, capacity: nat, poll: Option<Poll>, user: string, id: string)
    requires Valid(h) && Runs(h, run) && Describes(ctx, h, run) && PollsIfAny(h, poll, run.Key(), user)
    requires Serves(ctx, user) && (user, id) in ctx.monitors && ShouldEmitLifecycleNotify(Reasons(h, run))
    requires id in ctx.listedEvents && id !in ctx.listed
    ensures var sees, waits := PollSees(h, poll, run.Key(), id), Waits(h.moments[run.notified].queue, run.Key(), user);
            var stops := StopsBefore(ctx, capacity, Notice(user, id, Restock));
            var times := PollerRestocks(h, poll, run.Key(), id)
                         + FallbackRestocks(ctx, Reasons(h, run), capacity, user, id);
            && times == (if sees then 1 else 0) + (if waits || stops then 0 else 1)
            && (times == 1 <==> (sees <==> waits || stops))
  {
    hide FetchQueueRuns.Next, CatalogRuns.Step, ResultOf, Plan, PollerRestocks, SeesRestock, StopsBefore;
    PollerCount(h, poll, run.Key(), id);
    FallbackCount(ctx, h, run, capacity, user, id);
  }

  // When the apply of the run is what fills the config's stock.

  predicate SameStock(a: Configs, b: Configs, id: string) {
    (id in a <==> id in b) && (id in a ==> a[id].quantity == b[id].quantity)
  }

  /** No event from `i` on and before `k`, other than the run's apply, changes the config's stock. */
  predicate Quiet(h: History, i: nat, k: nat, apply: nat, id: string)
    requires i <= k < |h.moments|
  {
    forall e :: i <= e < k && e != apply ==> SameStock(h.moments[e].db.configs, h.moments[e + 1].db.configs, id)
  }

  lemma {:induction false} QuietKeepsStock(h: History, i: nat, k: nat, apply: nat, id: string)
    requires i <= k < |h.moments| && Quiet(h, i, k, apply, id) && !(i <= apply < k)
    ensures SameStock(h.moments[i].db.configs, h.moments[k].db.configs, id)
    decreases k - i
  {
    if i < k {
      QuietKeepsStock(h, i, k - 1, apply, id);
    }
  }

  /** The poll compares the config, read it before the apply and reads it again after it. */
  predicate Straddles(poll: Option<Poll>, run: Run, id: string)
    requires poll.Some? ==> |poll.value.rereads| == |poll.value.ids|
  {
    poll.Some? && id in poll.value.ids && poll.value.read <= run.applied < RereadOf(poll.value, id)
  }

  ghost predicate QuietPoll(h: History, run: Run, poll: Option<Poll>, id: string)
    requires poll.Some? ==> Polls(h, poll.value, run.Key())
  {
    poll.Some? && id in poll.value.ids ==> Quiet(h, poll.value.read, RereadOf(poll.value, id), run.applied, id)
  }

  /** Then a poll sees a restock exactly if it straddles the apply of a config whose row stood at
      zero. */
  lemma SeeingIsStraddling(h: History, run: Run, poll: Option<Poll>, user: string, id: string)
    requires Valid(h) && Runs(h, run) && PollsIfAny(h, poll, run.Key(), user) && QuietPoll(h, run, poll, id)
    requires id in ResultAt(h, run).listedEvents
    ensures var before := h.moments[run.applied].db.configs;
            PollSees(h, poll, run.Key(), id) <==> Straddles(poll, run, id) && id in before && before[id].quantity == 0
  {
    if poll.Some? && id in poll.value.ids {
      var reread := RereadOf(poll.value, id);
      CatalogIsConsistent(h, run.applied);
      assert Follows(h, run.applied);
      DistinctPagesAreTold(h.moments[run.applied].db, run.source, run.url, run.page, run.now, id);
      if Straddles(poll, run, id) {
        QuietKeepsStock(h, poll.value.read, run.applied, run.applied, id);
        QuietKeepsStock(h, run.applied + 1, reread, run.applied, id);
      } else {
        QuietKeepsStock(h, poll.value.read, reread, run.applied, id);
      }
    }
  }

  /** First stock of a config that was already listed: told exactly once if and only if the poll
      straddles the apply just when a poll of the user waits or the run stops before the notice. */
  lemma FirstStockTold(ctx: Context, h: History, run: Run, capacity: nat, poll: Option<Poll>, user: string, id: string)
    requires Valid(h) && Runs(h, run) && Describes(ctx, h, run) && PollsIfAny(h, poll, run.Key(), user)
    requires Serves(ctx, user) && (user, id) in ctx.monitors && ShouldEmitLifecycleNotify(Reasons(h, run))
    requires id in ctx.listedEvents && id !in ctx.listed && QuietPoll(h, run, poll, id)
    ensures var waits := Waits(h.moments[run.notified].queue, run.Key(), user);
            var stops := StopsBefore(ctx, capacity, Notice(user, id, Restock));
            var times := PollerRestocks(h, poll, run.Key(), id)
                         + FallbackRestocks(ctx, Reasons(h, run), capacity, user, id);
            && times == (if Straddles(poll, run, id) then 1 else 0) + (if waits || stops then 0 else 1)
            && (times == 1 <==> (Straddles(poll, run, id) <==> waits || stops))
  {
    hide FetchQueueRuns.Next, CatalogRuns.Step, ResultOf, Plan, PollerRestocks, SeesRestock, StopsBefore;
    RestocksTold(ctx, h, run, capacity, poll, user, id);
    SeeingIsStraddling(h, run, poll, user, id);
    PendingRowIsEmpty(h, run, id);
  }

  /** In an undisturbed run: told exactly once if and only if the poll straddles the apply and a poll of
      the user waits, or neither. */
  lemma FirstStockToldUndisturbed(
    ctx: Context, h: History, run: Run, capacity: nat, poll: Option<Poll>, user: string, id: string)
    requires Valid(h) && Runs(h, run) && Describes(ctx, h, run) && PollsIfAny(h, poll, run.Key(), user)
    requires Serves(ctx, user) && (user, id) in ctx.monitors && ShouldEmitLifecycleNotify(Reasons(h, run))
    requires id in ctx.listedEvents && id !in ctx.listed && QuietPoll(h, run, poll, id)
    requires NothingSellsOut(ctx, h, run) && |Plan(ctx)| <= capacity
    ensures var times := PollerRestocks(h, poll, run.Key(), id)
                         + FallbackRestocks(ctx, Reasons(h, run), capacity, user, id);
            times == 1 <==> (Straddles(poll, run, id) <==> Waits(h.moments[run.notified].queue, run.Key(), user))
  {
    hide FetchQueueRuns.Next, CatalogRuns.Step, ResultOf, Plan, PollerRestocks, SeesRestock, StopsBefore;
    FirstStockTold(ctx, h, run, capacity, poll, user, id);
    UndisturbedRunsTellAll(ctx, h, run, capacity, Notice(user, id, Restock));
  }

  lemma PendingRowIsEmpty(h: History, run: Run, id: string)
    requires Valid(h) && Runs(h, run) && id in ResultAt(h, run).listedEvents && id !in ResultAt(h, run).listed
    ensures var before := h.moments[run.applied].db.configs; id in before && before[id].quantity == 0
  {
    CatalogIsConsistent(h, run.applied);
    assert Follows(h, run.applied);
    PendingRowsAreEmpty(h.moments[run.applied].db, run.source, run.page, run.now, id);
  }

  /** A config that the run itself lists is told of by the fallback unless the run stops before the
      notice, and by the poll exactly if it straddles the apply and the row stood at zero before it. */
  lemma ListedStockTold(ctx: Context, h: History, run: Run, capacity: nat, poll: Option<Poll>, user: string, id: string)
    requires Valid(h) && Runs(h, run) && Describes(ctx, h, run) && PollsIfAny(h, poll, run.Key(), user)
    requires Serves(ctx, user) && (user, id) in ctx.monitors && ShouldEmitLifecycleNotify(Reasons(h, run))
    requires id in ctx.listedEvents && id in ctx.listed && QuietPoll(h, run, poll, id)
    ensures var before := h.moments[run.applied].db.configs;
            var stops := StopsBefore(ctx, capacity, Notice(user, id, Restock));
            var seen := Straddles(poll, run, id) && id in before && before[id].quantity == 0;
            && FallbackRestocks(ctx, Reasons(h, run), capacity, user, id) == (if stops then 0 else 1)
            && PollerRestocks(h, poll, run.Key(), id) == (if seen then 1 else 0)
  {
    hide FetchQueueRuns.Next, CatalogRuns.Step, ResultOf, Plan, PollerRestocks, SeesRestock, StopsBefore;
    FallbackCount(ctx, h, run, capacity, user, id);
    PollerCount(h, poll, run.Key(), id);
    SeeingIsStraddling(h, run, poll, user, id);
  }

  // The one poll of a user at a time.

  /** The poller asks one thing at a time: no other poll of the user waits on the task when the run
      reads its state. */
  ghost predicate OnlyPoll(h: History, run: Run, poll: Option<Poll>, user: string)
    requires run.notified < |h.moments| && (poll.Some? ==> poll.value.joined < |h.moments|)
  {
    forall q :: IsWaitingRequest(h.moments[run.notified].queue, q, run.Key(), user)
      ==> poll.Some? && q == RequestOf(h, poll.value)
  }

  /** The poll asked before the run read its state, and was not answered by then. */
  predicate JoinedUnanswered(h: History, run: Run, poll: Option<Poll>)
    requires run.notified < |h.moments| && (poll.Some? ==> poll.value.joined < |h.moments|)
  {
    var s := h.moments[run.notified].queue;
    poll.Some? && poll.value.joined < run.notified
    && RequestOf(h, poll.value) < |s.fates| && s.fates[RequestOf(h, poll.value)].Waiting?
  }

  /** Requests are kept: the poll's own stays at its number. */
  lemma {:induction false} RequestsStay(h: History, i: nat, k: nat, q: nat)
    requires Valid(h) && i <= k < |h.moments| && q < |h.moments[i].queue.requests|
    ensures q < |h.moments[k].queue.requests| && h.moments[k].queue.requests[q] == h.moments[i].queue.requests[q]
    decreases k - i
  {
    if i < k {
      RequestsStay(h, i, k - 1, q);
      assert Follows(h, k - 1);
    }
  }

  lemma {:induction false} RequestsGrow(h: History, i: nat, k: nat)
    requires Valid(h) && i <= k < |h.moments|
    ensures |h.moments[i].queue.requests| <= |h.moments[k].queue.requests|
    decreases k - i
  {
    if i < k {
      RequestsGrow(h, i, k - 1);
      assert Follows(h, k - 1);
    }
  }

  /** So the user waits exactly if that poll asked in time and is unanswered, and then it reads every
      config again only after the notices. */
  lemma WaitingIsTheOnlyPoll(h: History, run: Run, poll: Option<Poll>, user: string)
    requires Valid(h) && Runs(h, run) && PollsIfAny(h, poll, run.Key(), user) && OnlyPoll(h, run, poll, user)
    ensures Waits(h.moments[run.notified].queue, run.Key(), user) <==> JoinedUnanswered(h, run, poll)
    ensures JoinedUnanswered(h, run, poll) ==>
              forall i :: 0 <= i < |poll.value.rereads| ==> run.notified < poll.value.rereads[i]
  {
    var s := h.moments[run.notified].queue;
    if Waits(s, run.Key(), user) {
      var q :| IsWaitingRequest(s, q, run.Key(), user);
      if run.notified <= poll.value.joined {
        RequestsGrow(h, run.notified, poll.value.joined);
      }
    }
    if JoinedUnanswered(h, run, poll) {
      var q := RequestOf(h, poll.value);
      assert Follows(h, poll.value.joined);
      RequestsStay(h, poll.value.joined + 1, run.notified, q);
      assert IsWaitingRequest(s, q, run.Key(), user);
      forall i | 0 <= i < |poll.value.rereads|
        ensures run.notified < poll.value.rereads[i]
      {
        AnsweredLater(h, run, poll.value, poll.value.rereads[i]);
      }
    }
  }

  lemma AnsweredStays(h: History, i: nat, k: nat, q: nat)
    requires Valid(h) && i <= k < |h.moments|
    requires q < |h.moments[i].queue.fates| && h.moments[i].queue.fates[q].Answered?
    ensures q < |h.moments[k].queue.fates| && h.moments[k].queue.fates[q].Answered?
  {
    QueueIsReachable(h, i);
    FetchQueueRuns.InvariantHolds(h.moments[i].queue);
    var steps := QueueLeads(h, i, k);
    FetchQueueRuns.AnswersAreFinal(h.moments[i].queue, steps, h.moments[k].queue, q);
  }

  lemma AnsweredLater(h: History, run: Run, poll: Poll, reread: nat)
    requires Valid(h) && Runs(h, run) && reread < |h.moments| && poll.joined < |h.moments|
    requires JoinedUnanswered(h, run, Some(poll)) && RequestOf(h, poll) < |h.moments[reread].queue.fates|
    requires h.moments[reread].queue.fates[RequestOf(h, poll)].Answered?
    ensures run.notified < reread
  {
    if reread <= run.notified {
      AnsweredStays(h, reread, run.notified, RequestOf(h, poll));
    }
  }

  /** The whole condition in terms of when things happen. A poll that waits is told of the config once
      if it compares it and read it before the apply, and otherwise not at all. A poll that does not
      wait, because it asked too late or was answered by an earlier run, adds its own notice to that of
      the fallback if it straddles the apply, so it is told once exactly if only one of them comes. */
  lemma FirstStockByTheOnlyPoll(
    ctx: Context, h: History, run: Run, capacity: nat, poll: Option<Poll>, user: string, id: string)
    requires Valid(h) && Runs(h, run) && Describes(ctx, h, run) && PollsIfAny(h, poll, run.Key(), user)
    requires Serves(ctx, user) && (user, id) in ctx.monitors && ShouldEmitLifecycleNotify(Reasons(h, run))
    requires id in ctx.listedEvents && id !in ctx.listed && QuietPoll(h, run, poll, id) && OnlyPoll(h, run, poll, user)
    ensures var stops := StopsBefore(ctx, capacity, Notice(user, id, Restock));
            var times := PollerRestocks(h, poll, run.Key(), id)
                         + FallbackRestocks(ctx, Reasons(h, run), capacity, user, id);
            && times == (if JoinedUnanswered(h, run, poll)
                         then (if id in poll.value.ids && poll.value.read <= run.applied then 1 else 0)
                         else (if stops then 0 else 1) + (if Straddles(poll, run, id) then 1 else 0))
            && (times == 1 <==> if JoinedUnanswered(h, run, poll)
                                then id in poll.value.ids && poll.value.read <= run.applied
                                else Straddles(poll, run, id) <==> stops)
  {
    hide FetchQueueRuns.Next, CatalogRuns.Step, ResultOf, Plan, PollerRestocks, SeesRestock, StopsBefore;
    FirstStockTold(ctx, h, run, capacity, poll, user, id);
    WaitingIsTheOnlyPoll(h, run, poll, user);
  }

  /** A poll that asks before the apply and waits is told by itself of every config it compares, and a
      poll that begins after the waiters are read leaves them to the fallback. */
  lemma PollsAroundTheApply(ctx: Context, h: History, run: Run, capacity: nat, poll: Poll, user: string, id: string)
    requires Valid(h) && Runs(h, run) && Describes(ctx, h, run) && PollsIfAny(h, Some(poll), run.Key(), user)
    requires Serves(ctx, user) && (user, id) in ctx.monitors && ShouldEmitLifecycleNotify(Reasons(h, run))
    requires id in ctx.listedEvents && id !in ctx.listed
    requires QuietPoll(h, run, Some(poll), id) && OnlyPoll(h, run, Some(poll), user)
    requires (poll.joined < run.applied && JoinedUnanswered(h, run, Some(poll))) || run.notified <= poll.read
    ensures var stops := StopsBefore(ctx, capacity, Notice(user, id, Restock));
            var byPoll := PollerRestocks(h, Some(poll), run.Key(), id);
            var byFallback := FallbackRestocks(ctx, Reasons(h, run), capacity, user, id);
            && (poll.joined < run.applied ==> byFallback == 0 && byPoll == if id in poll.ids then 1 else 0)
            && (run.notified <= poll.read ==> byFallback == (if stops then 0 else 1) && byPoll == 0)
  {
    hide FetchQueueRuns.Next, CatalogRuns.Step, ResultOf, Plan, PollerRestocks, SeesRestock, StopsBefore;
    FirstStockTold(ctx, h, run, capacity, Some(poll), user, id);
    WaitingIsTheOnlyPoll(h, run, Some(poll), user);
    PollerCount(h, Some(poll), run.Key(), id);
    FallbackCount(ctx, h, run, capacity, user, id);
  }

  // A run that panics.

  /** Its worker takes no further step. */
  predicate Dies(h: History, run: Run) {
    forall e :: run.loaded <= e < |h.events| && h.events[e].OfQueue?
      ==> !FetchQueueRuns.IsStepOf(h.events[e].step, run.worker)
  }

  lemma {:induction false} DeadQueueLeads(h: History, run: Run, k: nat) returns (steps: seq<FetchQueueRuns.Step>)
    requires Valid(h) && Dies(h, run) && run.loaded <= k < |h.moments|
    ensures FetchQueueRuns.Leads(h.moments[run.loaded].queue, steps, h.moments[k].queue)
    ensures forall i :: 0 <= i < |steps| ==> !FetchQueueRuns.IsStepOf(steps[i], run.worker)
    decreases k
  {
    hide FetchQueueRuns.Next, FetchQueueRuns.Enabled;
    if run.loaded == k {
      steps := [];
    } else {
      steps := DeadQueueLeads(h, run, k - 1);
      assert Follows(h, k - 1);
      if h.events[k - 1].OfQueue? {
        LeadsOneMore(h.moments[run.loaded].queue, steps, h.moments[k - 1].queue, h.events[k - 1].step);
        steps := steps + [h.events[k - 1].step];
      }
    }
  }

  /** A run that panics also silences the polls: no request for its page that waits when it panics, and
      none made later, is ever answered, so such a poll never reads its configs again. */
  lemma DeadRunsSilencePolls(h: History, run: Run, poll: Poll)
    requires Valid(h) && Runs(h, run) && Dies(h, run) && Polls(h, poll, run.Key())
    requires run.loaded <= poll.joined
             || (RequestOf(h, poll) < |h.moments[run.loaded].queue.fates|
                 && h.moments[run.loaded].queue.fates[RequestOf(h, poll)].Waiting?)
    ensures poll.ids == []
  {
    hide FetchQueueRuns.Next, FetchQueueRuns.Enabled, FetchQueueRuns.Invariant;
    if poll.ids != [] {
      var s, reread, q := h.moments[run.loaded].queue, poll.rereads[0], RequestOf(h, poll);
      assert Follows(h, poll.joined);
      JoinAddsTheRequest(h, poll, run.Key());
      if reread < run.loaded {
        AnsweredStays(h, reread, run.loaded, q);
      } else {
        var steps := DeadQueueLeads(h, run, reread);
        RequestsStay(h, poll.joined + 1, reread, q);
        QueueIsReachable(h, run.loaded);
        FetchQueueRuns.InvariantHolds(s);
        FetchQueueRuns.RequestsHaveFates(s);
        if run.loaded <= poll.joined {
          RequestsGrow(h, run.loaded, poll.joined);
        }
        FetchQueueRuns.StoppedWorkersAnswerNobody(s, steps, h.moments[reread].queue, run.worker, run.Key(), q);
      }
    }
  }

  lemma JoinAddsTheRequest(h: History, poll: Poll, key: FetchQueue.TaskKey)
    requires Valid(h) && Polls(h, poll, key)
    ensures var q, requests := RequestOf(h, poll), h.moments[poll.joined + 1].queue.requests;
            q < |requests| && requests[q].key == key
  {
    assert Follows(h, poll.joined);
  }
}
