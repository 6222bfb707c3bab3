/** Histories in which a user is told of a first stock twice, or not at all. */
module StockExamples {
  import opened Wrappers
  import opened Sources
  import opened CatalogStore
  import opened CatalogLifecycle
  import opened CatalogDates
  import opened LifecycleDelivery
  import opened FirstStock
  import opened StockTimeline
  import CatalogRuns
  import opened FetchQueue
  import FetchQueueRuns

  const USER := "u"

  function Discovery(key: TaskKey): Request { Request(key, "discovery_due", false, None) }

  function Asking(key: TaskKey): Request { Request(key, "poller_due", false, Some(USER)) }

  // The queue: a worker fetches a page, a poll joins meanwhile, and both requests are answered.

  datatype Stage = Idle | Queued | Held | Started | Fetched | Joined | Sealed | Replied

  function EntryAt(key: TaskKey, stage: Stage): TaskEntry {
    var first := NewEntry(Joiner(0, Discovery(key)));
    if stage.Queued? || stage.Held? then first
    else if stage.Joined? then FetchQueue.Joined(first.(run := Some(0)), Joiner(1, Asking(key)))
    else first.(run := Some(0))
  }

  function WorkerAt(key: TaskKey, stage: Stage): FetchQueueRuns.Worker {
    match stage
    case Held => FetchQueueRuns.Popped(key)
    case Started => FetchQueueRuns.Attempting(key, 0, 1)
    case Fetched => FetchQueueRuns.Fetching(key, 0, 1)
    case Joined => FetchQueueRuns.Fetching(key, 0, 1)
    case Sealed => FetchQueueRuns.Replying(0, true, false, [Joiner(0, Discovery(key)), Joiner(1, Asking(key))])
    case _ => FetchQueueRuns.Awake
  }

  function FatesAt(stage: Stage): seq<FetchQueueRuns.Fate> {
    match stage
    case Idle => []
    case Joined => [FetchQueueRuns.Waiting, FetchQueueRuns.Waiting]
    case Sealed => [FetchQueueRuns.Taken(0), FetchQueueRuns.Taken(0)]
    case Replied => [FetchQueueRuns.Answered(0, true, false), FetchQueueRuns.Answered(0, true, false)]
    case _ => [FetchQueueRuns.Waiting]
  }

  function SystemAt(key: TaskKey, stage: Stage): FetchQueueRuns.System {
    var both := stage.Joined? || stage.Sealed? || stage.Replied?;
    FetchQueueRuns.System(
      QueueState(if both then 1 else 0, if stage.Queued? then [key] else [],
                 if stage.Idle? || stage.Sealed? || stage.Replied? then map[] else map[key := EntryAt(key, stage)]),
      [WorkerAt(key, stage)],
      false,
      if stage.Idle? then 0 else 1,
      if stage.Idle? || stage.Queued? || stage.Held? then 0 else 1,
      if stage.Idle? then [] else if both then [Discovery(key), Asking(key)] else [Discovery(key)],
      FatesAt(stage),
      if stage.Idle? then 0 else 1,
      {})
  }

  function StepFrom(key: TaskKey, stage: Stage): FetchQueueRuns.Step {
    match stage
    case Idle => FetchQueueRuns.Enqueue(Discovery(key))
    case Queued => FetchQueueRuns.Pop(0)
    case Held => FetchQueueRuns.Start(0, true)
    case Started => FetchQueueRuns.Attempt(0, None)
    case Fetched => FetchQueueRuns.Enqueue(Asking(key))
    case _ => if stage.Joined? then FetchQueueRuns.Seal(0, true) else FetchQueueRuns.Reply(0)
  }

  function NextStage(stage: Stage): Stage {
    match stage
    case Idle => Queued
    case Queued => Held
    case Held => Started
    case Started => Fetched
    case Fetched => Stage.Joined
    case _ => if stage.Joined? then Sealed else Replied
  }

  predicate StepsOn(key: TaskKey, stage: Stage) {
    && FetchQueueRuns.Enabled(SystemAt(key, stage), StepFrom(key, stage))
    && FetchQueueRuns.Next(SystemAt(key, stage), StepFrom(key, stage)) == SystemAt(key, NextStage(stage))
  }

  lemma EarlyStep(key: TaskKey, stage: Stage)
    requires key.fid != "" && (stage.Idle? || stage.Queued? || stage.Held? || stage.Started?)
    ensures StepsOn(key, stage)
  {
  }

  lemma JoinStep(key: TaskKey)
    requires key.fid != ""
    ensures StepsOn(key, Fetched)
  {
  }

  lemma EndStep(key: TaskKey, stage: Stage)
    requires stage.Joined? || stage.Sealed?
    ensures StepsOn(key, stage)
  {
    var s, step, t := SystemAt(key, stage), StepFrom(key, stage), SystemAt(key, NextStage(stage));
    var j0, j1 := Joiner(0, Discovery(key)), Joiner(1, Asking(key));
    if stage.Joined? {
      assert CompletionOf(s.queue, key).joiners == [j0, j1];
    }
    assert [j0, j1][0].id == 0 && [j0, j1][1].id == 1;
    assert FetchQueueRuns.Has([j0, j1], 0) && FetchQueueRuns.Has([j0, j1], 1);
    assert FetchQueueRuns.Next(s, step).queue == t.queue;
    assert FetchQueueRuns.Next(s, step).fates == t.fates;
  }

  lemma QueueStep(key: TaskKey, stage: Stage)
    requires key.fid != "" && !stage.Replied?
    ensures StepsOn(key, stage)
  {
    hide StepsOn;
    if stage.Joined? || stage.Sealed? {
      EndStep(key, stage);
    } else if stage.Fetched? {
      JoinStep(key);
    } else {
      EarlyStep(key, stage);
    }
  }

  // The catalog: one config of the page, before the run without stock, then with stock.

  function ConfigId(source: Source): string { IdPrefix(source) + "x" }

  function PageWith(source: Source, quantity: int): seq<FetchedConfig> {
    [FetchedConfig(ConfigId(source), "n", "d", quantity, None, source)]
  }

  const EMPTY := Db(map[], map[], map[], map[])

  /** The config is listed without stock. */
  function PendingDb(source: Source): Db { Applied(EMPTY, source, "u", PageWith(source, 0), 1) }

  /** And delisted again. */
  function DelistedDb(source: Source): Db { Applied(PendingDb(source), source, "u", [], 2) }

  lemma OneConfigPages(source: Source, quantity: int)
    requires WellFormed(source) && quantity >= 0
    ensures var page := PageWith(source, quantity);
            && ParsedFrom(page, source) && DistinctPage(page) && PageIds(page) == {ConfigId(source)}
            && (InStock(page, ConfigId(source)) <==> quantity > 0)
  {
    var page := PageWith(source, quantity);
    assert page[0].id == ConfigId(source);
    if quantity > 0 {
      assert page[0].quantity > 0;
    }
  }

  lemma PendingFacts(source: Source)
    requires WellFormed(source)
    ensures var db, id := PendingDb(source), ConfigId(source);
            && Consistent(db) && ActiveFrom(db.configs, source) == {id}
            && id in db.configs && db.configs[id].quantity == 0 && OpenEvent(db.configs, id).None?
  {
    var page, id := PageWith(source, 0), ConfigId(source);
    OneConfigPages(source, 0);
    ApplyConsistent(EMPTY, source, "u", page, 1);
    AppliedActive(EMPTY, source, "u", page, 1, source);
    AppliedRows(EMPTY, source, "u", page, 1, id);
    UpsertedRows(EMPTY.configs, page, source, 1, id);
  }

  lemma DelistedFacts(source: Source)
    requires WellFormed(source)
    ensures var db, id := DelistedDb(source), ConfigId(source);
            && Consistent(db) && ActiveFrom(db.configs, source) == {}
            && id in db.configs && db.configs[id].quantity == 0 && OpenEvent(db.configs, id).None?
  {
    var db, id := PendingDb(source), ConfigId(source);
    PendingFacts(source);
    ApplyConsistent(db, source, "u", [], 2);
    AppliedActive(db, source, "u", [], 2, source);
    AppliedRows(db, source, "u", [], 2, id);
  }

  // The histories.

  function FillOp(source: Source): CatalogRuns.Op {
    CatalogRuns.Apply(source, "u", PageWith(source, 5), true, 3)
  }

  /** The queue and the tables at a stage of the run, before and after its apply. */
  function At(source: Source, base: Db, stage: Stage, filled: bool): Moment {
    Moment(SystemAt(TaskOf(source), stage), if filled then CatalogRuns.Step(base, FillOp(source)) else base)
  }

  function Example(source: Source, base: Db): History {
    var key := TaskOf(source);
    History(
      [At(source, base, Idle, false), At(source, base, Queued, false), At(source, base, Held, false),
       At(source, base, Started, false), At(source, base, Fetched, false), At(source, base, Fetched, true),
       At(source, base, Stage.Joined, true), At(source, base, Sealed, true), At(source, base, Replied, true)],
      [OfQueue(StepFrom(key, Idle)), OfQueue(StepFrom(key, Queued)), OfQueue(StepFrom(key, Held)),
       OfQueue(StepFrom(key, Started)), OfCatalog(FillOp(source)), OfQueue(StepFrom(key, Fetched)),
       OfQueue(StepFrom(key, Stage.Joined)), OfQueue(StepFrom(key, Sealed))])
  }

  lemma ExampleIsValid(source: Source, base: Db)
    requires WellFormed(source) && Consistent(base)
    ensures Valid(Example(source, base))
  {
    hide FetchQueueRuns.Next, FetchQueueRuns.Enabled, SystemAt, StepFrom, CatalogRuns.Step;
    var h, key := Example(source, base), TaskOf(source);
    QueueStep(key, Idle);
    QueueStep(key, Queued);
    QueueStep(key, Held);
    QueueStep(key, Started);
    QueueStep(key, Fetched);
    QueueStep(key, Stage.Joined);
    QueueStep(key, Sealed);
    OneConfigPages(source, 5);
    StartsInitial(key);
    forall k | 0 <= k < |h.events|
      ensures Follows(h, k)
    {
    }
  }

  lemma StartsInitial(key: TaskKey)
    ensures FetchQueueRuns.Initial(SystemAt(key, Idle))
  {
  }

  function ExampleRun(source: Source, notified: nat): Run {
    Run(0, source, "u", PageWith(source, 5), true, 3, 4, notified, notified)
  }

  lemma ExampleRuns(source: Source, base: Db, notified: nat)
    requires WellFormed(source) && Consistent(base) && 5 <= notified <= 6
    ensures Runs(Example(source, base), ExampleRun(source, notified))
  {
    OneConfigPages(source, 5);
  }

  lemma ExampleWaits(source: Source, base: Db, notified: nat)
    requires 5 <= notified <= 6
    ensures var s, key := Example(source, base).moments[notified].queue, TaskOf(source);
            && key in s.queue.tasks && ShouldEmitLifecycleNotify(s.queue.tasks[key].reasonCounts)
            && (Waits(s, key, USER) <==> notified == 6)
  {
    var h, key := Example(source, base), TaskOf(source);
    var s := h.moments[notified].queue;
    assert s == SystemAt(key, if notified == 5 then Fetched else Stage.Joined);
    assert "discovery_due" in s.queue.tasks[key].reasonCounts;
    if notified == 6 {
      assert IsWaitingRequest(s, 1, key, USER);
    } else {
      assert forall q :: 0 <= q < |s.requests| ==> s.requests[q] == Discovery(key);
    }
  }

  /** A poll that reads its configs at the moment `read`, joins the run, and reads them again at the
      end. */
  function ExamplePoll(ids: seq<string>, read: nat): Poll {
    Poll(USER, ids, read, 5, seq(|ids|, _ => 8))
  }

  lemma ExamplePolls(source: Source, base: Db, ids: seq<string>, read: nat)
    requires WellFormed(source) && Consistent(base) && NoRepeats(ids) && read <= 5
    ensures Polls(Example(source, base), ExamplePoll(ids, read), TaskOf(source))
  {
    var h, poll := Example(source, base), ExamplePoll(ids, read);
    assert RequestOf(h, poll) == 1;
    assert h.moments[8].queue.fates == FatesAt(Replied);
  }

  /** The tables change only by the run's apply. */
  lemma ExampleIsQuiet(source: Source, base: Db, notified: nat, ids: seq<string>, read: nat, id: string)
    requires WellFormed(source) && Consistent(base) && NoRepeats(ids) && read <= 5
    ensures Polls(Example(source, base), ExamplePoll(ids, read), TaskOf(source))
    ensures QuietPoll(Example(source, base), ExampleRun(source, notified), Some(ExamplePoll(ids, read)), id)
  {
    hide SystemAt, CatalogRuns.Step;
    ExamplePolls(source, base, ids, read);
  }

  /** The notices of the run, for one user who monitors the config. */
  function ExampleContext(source: Source, base: Db, notified: nat): Context
    requires notified < 9 && TaskOf(source) in Example(source, base).moments[notified].queue.queue.tasks
  {
    var h, run := Example(source, base), ExampleRun(source, notified);
    var result := ResultAt(h, run);
    Context([], [USER], {(USER, ConfigId(source))},
            h.moments[notified].queue.queue.tasks[TaskOf(source)].pollerWaiters,
            h.moments[notified].db.configs, result.listed, result.listedEvents, [])
  }

  lemma ExampleTells(source: Source, base: Db)
    requires WellFormed(source) && Consistent(base) && ActiveFrom(base.configs, source) <= {ConfigId(source)}
    requires OpenEvent(base.configs, ConfigId(source)).None?
    ensures var result, id := ResultOf(base, source, PageWith(source, 5), 3), ConfigId(source);
            && id in result.listedEvents && result.delisted == {}
            && (id in result.listed <==> !IsActive(base.configs, id))
  {
    var page, id := PageWith(source, 5), ConfigId(source);
    OneConfigPages(source, 5);
    DecisionMatchesRow(base, source, "u", page, 3, id);
    ListedSplits(base, source, page, 3, id);
    PreviousIdsAreTheActiveOnes(base, source);
  }

  lemma ExampleDescribes(source: Source, base: Db, notified: nat)
    requires WellFormed(source) && Consistent(base) && ActiveFrom(base.configs, source) <= {ConfigId(source)}
    requires OpenEvent(base.configs, ConfigId(source)).None? && 5 <= notified <= 6
    ensures TaskOf(source) in Example(source, base).moments[notified].queue.queue.tasks
    ensures Describes(ExampleContext(source, base, notified), Example(source, base), ExampleRun(source, notified))
  {
    ExampleRuns(source, base, notified);
    ExampleWaits(source, base, notified);
    ExampleTells(source, base);
  }

  lemma ExampleIsUndisturbed(source: Source, base: Db, notified: nat)
    requires 5 <= notified <= 6
    requires TaskOf(source) in Example(source, base).moments[notified].queue.queue.tasks
    ensures NothingSellsOut(ExampleContext(source, base, notified), Example(source, base), ExampleRun(source, notified))
  {
    hide SystemAt, CatalogRuns.Step;
  }

  // The outcomes, if all deliveries succeed.

  function ExampleTimes(source: Source, base: Db, notified: nat, ids: seq<string>, read: nat): nat
    requires notified < 9 && TaskOf(source) in Example(source, base).moments[notified].queue.queue.tasks
    requires Polls(Example(source, base), ExamplePoll(ids, read), TaskOf(source))
  {
    var h, run := Example(source, base), ExampleRun(source, notified);
    var ctx := ExampleContext(source, base, notified);
    PollerRestocks(h, Some(ExamplePoll(ids, read)), TaskOf(source), ConfigId(source))
    + FallbackRestocks(ctx, Reasons(h, run), |Plan(ctx)|, USER, ConfigId(source))
  }

  /** How often the user of the example is told of a config that was listed before. */
  lemma PendingExampleTold(source: Source, notified: nat, ids: seq<string>, read: nat)
    requires WellFormed(source) && 5 <= notified <= 6 && NoRepeats(ids) && read <= 5
    ensures Polls(Example(source, PendingDb(source)), ExamplePoll(ids, read), TaskOf(source))
    ensures TaskOf(source) in Example(source, PendingDb(source)).moments[notified].queue.queue.tasks
    ensures ExampleTimes(source, PendingDb(source), notified, ids, read)
            == (if ConfigId(source) in ids && read <= 4 then 1 else 0) + (if notified == 6 then 0 else 1)
  {
    hide SystemAt, FetchQueueRuns.Next, CatalogRuns.Step, Plan, PollerRestocks, Changes;
    var base, id := PendingDb(source), ConfigId(source);
    PendingFacts(source);
    ExampleIsValid(source, base);
    ExampleRuns(source, base, notified);
    ExampleWaits(source, base, notified);
    ExampleIsQuiet(source, base, notified, ids, read, id);
    ExampleTells(source, base);
    ExampleDescribes(source, base, notified);
    ExampleIsUndisturbed(source, base, notified);
    var ctx, h, run := ExampleContext(source, base, notified), Example(source, base), ExampleRun(source, notified);
    FirstStockTold(ctx, h, run, |Plan(ctx)|, Some(ExamplePoll(ids, read)), USER, id);
    UndisturbedRunsTellAll(ctx, h, run, |Plan(ctx)|, Notice(USER, id, Restock));
  }

  /** A poll that read the old row before the apply and joins after the run read its waiters: twice. */
  lemma ToldTwice(source: Source)
    requires WellFormed(source)
    ensures var base, ids := PendingDb(source), [ConfigId(source)];
            && Polls(Example(source, base), ExamplePoll(ids, 4), TaskOf(source))
            && TaskOf(source) in Example(source, base).moments[5].queue.queue.tasks
            && ExampleTimes(source, base, 5, ids, 4) == 2
  {
    PendingExampleTold(source, 5, [ConfigId(source)], 4);
  }

  /** A poll that waits, but read the row only after the apply, or does not compare the config: not at
      all. */
  lemma NotTold(source: Source)
    requires WellFormed(source)
    ensures var base, ids := PendingDb(source), [ConfigId(source)];
            && Polls(Example(source, base), ExamplePoll(ids, 5), TaskOf(source))
            && Polls(Example(source, base), ExamplePoll([], 4), TaskOf(source))
            && TaskOf(source) in Example(source, base).moments[6].queue.queue.tasks
            && ExampleTimes(source, base, 6, ids, 5) == 0
            && ExampleTimes(source, base, 6, [], 4) == 0
  {
    PendingExampleTold(source, 6, [ConfigId(source)], 5);
    PendingExampleTold(source, 6, [], 4);
  }

  /** A relisted config whose old row stood at zero: twice, though the poll waits. */
  lemma RelistedToldTwice(source: Source)
    requires WellFormed(source)
    ensures var base, ids := DelistedDb(source), [ConfigId(source)];
            && Polls(Example(source, base), ExamplePoll(ids, 4), TaskOf(source))
            && TaskOf(source) in Example(source, base).moments[6].queue.queue.tasks
            && ExampleTimes(source, base, 6, ids, 4) == 2
  {
    hide SystemAt, FetchQueueRuns.Next, CatalogRuns.Step, Plan, PollerRestocks, Changes;
    var base, id := DelistedDb(source), ConfigId(source);
    var ids := [id];
    DelistedFacts(source);
    ExampleIsValid(source, base);
    ExampleRuns(source, base, 6);
    ExampleWaits(source, base, 6);
    ExampleIsQuiet(source, base, 6, ids, 4, id);
    ExampleTells(source, base);
    ExampleDescribes(source, base, 6);
    ExampleIsUndisturbed(source, base, 6);
    var ctx, h, run := ExampleContext(source, base, 6), Example(source, base), ExampleRun(source, 6);
    ListedStockTold(ctx, h, run, |Plan(ctx)|, Some(ExamplePoll(ids, 4)), USER, id);
    UndisturbedRunsTellAll(ctx, h, run, |Plan(ctx)|, Notice(USER, id, Restock));
  }

  // A second page that empties the config before its row is loaded.

  function EmptyOp(source: Source): CatalogRuns.Op {
    CatalogRuns.Apply(source, "u", PageWith(source, 0), true, 4)
  }

  function SoldOutExample(source: Source): History {
    var h := Example(source, PendingDb(source));
    var emptied := h.moments[5].(db := CatalogRuns.Step(h.moments[5].db, EmptyOp(source)));
    History(h.moments[..6] + [emptied], h.events[..5] + [OfCatalog(EmptyOp(source))])
  }

  function SoldOutRun(source: Source): Run {
    ExampleRun(source, 5).(loaded := 6)
  }

  lemma SoldOutExampleIsValid(source: Source)
    requires WellFormed(source)
    ensures Valid(SoldOutExample(source)) && Runs(SoldOutExample(source), SoldOutRun(source))
  {
    hide FetchQueueRuns.Next, FetchQueueRuns.Enabled, SystemAt, StepFrom, CatalogRuns.Step, Refused;
    var base := PendingDb(source);
    var h, sold := Example(source, base), SoldOutExample(source);
    PendingFacts(source);
    ExampleIsValid(source, base);
    ExampleRuns(source, base, 5);
    OneConfigPages(source, 0);
    forall k | 0 <= k < |sold.events|
      ensures Follows(sold, k)
    {
      if k < 5 {
        assert Follows(h, k);
      }
    }
  }

  function SoldOutContext(source: Source): Context
    requires TaskOf(source) in Example(source, PendingDb(source)).moments[5].queue.queue.tasks
  {
    ExampleContext(source, PendingDb(source), 5).(rows := SoldOutExample(source).moments[6].db.configs)
  }

  lemma SoldOutIsShown(source: Source)
    requires WellFormed(source)
    ensures var h, run, id := SoldOutExample(source), SoldOutRun(source), ConfigId(source);
            && ShowsAt(h, run.applied, id) && id in h.moments[6].db.configs
            && DecidingPage(h, run, id) == PageWith(source, 0)
            && !EndsInStock(DecidingPage(h, run, id), id)
  {
    hide FetchQueueRuns.Next, SystemAt, StepFrom, CatalogRuns.Step;
    var h, run, id := SoldOutExample(source), SoldOutRun(source), ConfigId(source);
    OneConfigPages(source, 0);
    OneConfigPages(source, 5);
    SoldOutExampleIsValid(source);
    assert ShowsAt(h, 4, id) && ShowsAt(h, 5, id);
    StockIsLastShown(h, 4, 6, id);
  }

  /** The user monitors a config that was listed before, does not poll, and is told of its first stock
      by nobody: the run panics, since another page emptied the row before it was loaded. */
  lemma SoldOutPanics(source: Source, capacity: nat)
    requires WellFormed(source)
    ensures TaskOf(source) in Example(source, PendingDb(source)).moments[5].queue.queue.tasks
    ensures var h, run, ctx, id := SoldOutExample(source), SoldOutRun(source), SoldOutContext(source), ConfigId(source);
            && Valid(h) && Runs(h, run) && Describes(ctx, h, run) && QuietPoll(h, run, None, id)
            && id in ctx.listedEvents && id !in ctx.listed && ShouldEmitLifecycleNotify(Reasons(h, run))
            && PollerRestocks(h, None, TaskOf(source), id) == 0
            && FallbackRestocks(ctx, Reasons(h, run), capacity, USER, id) == 0
            && (|Plan(ctx)| <= capacity ==> OutcomeOf(ctx, Plan(ctx), capacity) == Panicked)
  {
    hide FetchQueueRuns.Next, SystemAt, StepFrom, CatalogRuns.Step, Plan, OutcomeOf, SentOf, DecidingPage, EndsInStock;
    var base, id := PendingDb(source), ConfigId(source);
    PendingFacts(source);
    SoldOutExampleIsValid(source);
    ExampleWaits(source, base, 5);
    ExampleTells(source, base);
    ExampleDescribes(source, base, 5);
    SoldOutIsShown(source);
    var h, run, ctx := SoldOutExample(source), SoldOutRun(source), SoldOutContext(source);
    assert h.moments[5] == Example(source, base).moments[5] && h.moments[4] == Example(source, base).moments[4];
    WaitersWait(h, run, USER);
    assert Tells(ctx, USER, id);
    SoldOutIsNotTold(ctx, h, run, capacity, USER, id);
  }
}
