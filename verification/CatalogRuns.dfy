/** Whole histories of the catalog store. */
module CatalogRuns {
  import opened Wrappers
  import opened Sources
  import opened CatalogStore
  import opened CatalogLifecycle

  datatype Op =
    | Apply(source: Source, url: string, page: seq<FetchedConfig>, authoritative: bool, now: int)
    | Retire(targets: set<Source>, now: int)
    | Archive(user: string, now: int)

  predicate Genuine(op: Op) {
    op.Apply? ==> ParsedFrom(op.page, op.source)
  }

  predicate AllGenuine(ops: seq<Op>) {
    forall i :: 0 <= i < |ops| ==> Genuine(ops[i])
  }

  function Step(db: Db, op: Op): Db {
    match op
    case Apply(source, url, page, authoritative, now) =>
      if Refused(db, source, page, authoritative) then db else Applied(db, source, url, page, now)
    case Retire(targets, now) => Retired(db, targets, now)
    case Archive(user, now) => Archived(db, user, now)
  }

  /** The configs a step tells of as listed. */
  function Told(db: Db, op: Op): set<string> {
    if op.Apply? && !Refused(db, op.source, op.page, op.authoritative)
    then Elements(ResultOf(db, op.source, op.page, op.now).listedEvents) else {}
  }

  /** The tables after a history that starts with empty tables. */
  function After(ops: seq<Op>): Db {
    if ops == [] then Db(map[], map[], map[], map[]) else Step(After(ops[..|ops| - 1]), ops[|ops| - 1])
  }

  lemma {:induction false} HistoriesAreConsistent(ops: seq<Op>)
    requires AllGenuine(ops)
    ensures Consistent(After(ops))
  {
    if ops != [] {
      var before, op := ops[..|ops| - 1], ops[|ops| - 1];
      HistoriesAreConsistent(before);
      StepConsistent(After(before), op);
    }
  }

  lemma StepConsistent(db: Db, op: Op)
    requires Consistent(db) && Genuine(op)
    ensures Consistent(Step(db, op))
  {
    match op
    case Apply(source, url, page, authoritative, now) => ApplyConsistent(db, source, url, page, now);
    case Retire(targets, now) => RetireConsistent(db, targets, now);
    case Archive(user, now) => ArchiveConsistent(db, user, now);
  }

  /** An apply of an empty page that is not authoritative changes nothing if the source has any active
      config, and every other apply leaves exactly the configs of the page active. */
  lemma AppliesOrRefuses(
    db: Db, source: Source, url: string, page: seq<FetchedConfig>, authoritative: bool, now: int)
    requires Consistent(db) && ParsedFrom(page, source)
    ensures var after := Step(db, Apply(source, url, page, authoritative, now));
            if page == [] && !authoritative && ActiveFrom(db.configs, source) != {} then after == db
            else ActiveFrom(after.configs, source) == PageIds(page)
    ensures Refused(db, source, page, authoritative)
            <==> page == [] && !authoritative && ActiveFrom(db.configs, source) != {}
  {
    PreviousIdsAreTheActiveOnes(db, source);
    AppliedActive(db, source, url, page, now, source);
  }

  /** In every history: delisted exactly if dated as delisted, active and never told of only at
      zero stock, archived only while delisted, and every cached list is what the scan returns. */
  lemma LifecycleInvariants(ops: seq<Op>, id: string, user: string, source: Source)
    requires AllGenuine(ops)
    ensures var db := After(ops);
            && (id in db.configs ==>
                  && (db.configs[id].state == Delisted <==> db.configs[id].delistedAt.Some?)
                  && (db.configs[id].state == Active && db.configs[id].listedEventAt.None?
                      ==> db.configs[id].quantity == 0))
            && ((user, id) in db.archives ==> id in db.configs && db.configs[id].state == Delisted)
            && (WellFormed(source) ==> PreviousIds(db, source) == ActiveFrom(db.configs, source))
  {
    HistoriesAreConsistent(ops);
    if WellFormed(source) {
      PreviousIdsAreTheActiveOnes(After(ops), source);
    }
  }

  // The listing events of one lifecycle, that is, of one maximal active period.

  predicate ActiveAfter(ops: seq<Op>, id: string) {
    IsActive(After(ops).configs, id)
  }

  /** How many steps of the current lifecycle told of the config. */
  function TimesTold(ops: seq<Op>, id: string): nat {
    if ops == [] || !ActiveAfter(ops, id) then 0
    else
      var before := ops[..|ops| - 1];
      (if ActiveAfter(before, id) then TimesTold(before, id) else 0)
      + (if id in Told(After(before), ops[|ops| - 1]) then 1 else 0)
  }

  /** Whether a fetch of the current lifecycle found the config in stock. */
  predicate StockSeen(ops: seq<Op>, id: string) {
    ops != [] && ActiveAfter(ops, id) &&
    var before, op := ops[..|ops| - 1], ops[|ops| - 1];
    || (ActiveAfter(before, id) && StockSeen(before, id))
    || (op.Apply? && !Refused(After(before), op.source, op.page, op.authoritative) && InStock(op.page, id))
  }

  /** How one step moves a config's open event. */
  lemma OpenEventStep(db: Db, op: Op, id: string)
    requires Consistent(db) && Genuine(op)
    ensures var after := Step(db, op);
            var stocked := op.Apply? && !Refused(db, op.source, op.page, op.authoritative) && InStock(op.page, id);
            && (id in Told(db, op) <==> stocked && OpenEvent(db.configs, id).None?)
            && (stocked ==> IsActive(after.configs, id))
            && (IsActive(after.configs, id) ==>
                  (OpenEvent(after.configs, id).Some? <==> stocked || OpenEvent(db.configs, id).Some?))
  {
    match op
    case Apply(source, url, page, authoritative, now) =>
      if !Refused(db, source, page, authoritative) {
        DecisionMatchesRow(db, source, url, page, now, id);
        AppliedRows(db, source, url, page, now, id);
        UpsertedRows(db.configs, page, source, now, id);
        if InStock(page, id) {
          var i :| 0 <= i < |page| && page[i].id == id && page[i].quantity > 0;
          assert id in PageIds(page);
        }
      }
    case Retire(_, _) =>
    case Archive(_, _) =>
  }

  /** Over any history, each lifecycle of a config tells of it at most once: once if some fetch of
      the lifecycle found it in stock, and not at all otherwise. */
  lemma {:induction false} ToldOncePerLifecycle(ops: seq<Op>, id: string)
    requires AllGenuine(ops) && ActiveAfter(ops, id)
    ensures TimesTold(ops, id) == if StockSeen(ops, id) then 1 else 0
    ensures OpenEvent(After(ops).configs, id).Some? <==> StockSeen(ops, id)
  {
    if ops != [] {
      var before, op := ops[..|ops| - 1], ops[|ops| - 1];
      HistoriesAreConsistent(before);
      OpenEventStep(After(before), op, id);
      if ActiveAfter(before, id) {
        ToldOncePerLifecycle(before, id);
      }
    }
  }

  /** And the telling step is the first fetch of the lifecycle that finds the config in stock. */
  lemma ToldAtFirstStock(ops: seq<Op>, id: string)
    requires AllGenuine(ops) && ops != []
    ensures var before, op := ops[..|ops| - 1], ops[|ops| - 1];
            id in Told(After(before), op)
            <==> StockSeen(ops, id) && !(ActiveAfter(before, id) && StockSeen(before, id))
  {
    var before, op := ops[..|ops| - 1], ops[|ops| - 1];
    HistoriesAreConsistent(before);
    OpenEventStep(After(before), op, id);
    if ActiveAfter(before, id) {
      ToldOncePerLifecycle(before, id);
    }
  }
}
