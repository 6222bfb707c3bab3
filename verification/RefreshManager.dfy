/** The single-flight manager of full catalog refreshes: the shared state and the job loop. */
module RefreshManager {
  import opened Wrappers
  import opened Sources
  import opened Calendar

  const MANUAL_MIN_INTERVAL_SECONDS := 30
  const FULL_REFRESH_CACHE_HIT_SECONDS := 300

  datatype RefreshTrigger = Manual | Auto

  datatype RefreshState = Idle | Running | Succeeded | Errored

  datatype Action = Fetch | Cache

  datatype Current = Current(urlKey: string, action: Action, bypassed: bool)

  datatype Status = Status(
    jobId: nat,
    state: RefreshState,
    trigger: RefreshTrigger,
    done: int,
    total: int,
    message: Option<string>,
    current: Option<Current>)

  datatype TriggerError = RateLimited

  // The status updates.

  function Begun(jobId: nat, trigger: RefreshTrigger): Status {
    Status(jobId, Running, trigger, 0, 0, None, None)
  }

  function AfterError(st: Status, message: string): Status {
    st.(state := Errored, message := Some(message), current := None)
  }

  function AfterSuccess(st: Status): Status {
    st.(state := Succeeded, message := None, current := None)
  }

  function AfterProgress(st: Status, done: int, total: int, current: Option<Current>): Status {
    st.(done := done, total := total, current := current)
  }

  // The rate limit of manual triggers, in nanoseconds of clock readings.

  predicate PassesGate(gate: map<string, int>, user: string, now: int) {
    user in gate ==> now - gate[user] >= MANUAL_MIN_INTERVAL_SECONDS * NANOS_PER_SECOND
  }

  // The job.

  /** How the visit of one target ends. */
  datatype Outcome = LookupFailed(error: string) | FetchFailed(error: string) | Answered

  /** One target with what its visit finds: the age in nanoseconds of the cached page, if there is
      one whose date can be read, and whether the notice of its region was ever read. */
  datatype Visit = Visit(source: Source, cacheAge: Option<int>, noticeRead: bool, outcome: Outcome)

  predicate CacheIsRecent(visit: Visit) {
    visit.cacheAge.Some? && visit.cacheAge.value <= FULL_REFRESH_CACHE_HIT_SECONDS * NANOS_PER_SECOND
  }

  /** What the status shows of a visit. A recent page is announced as a cache hit, unless the
      notice of the region was never read, which also forces the fetch. */
  function ShownOf(visit: Visit): Current {
    Current(UrlKey(visit.source), if CacheIsRecent(visit) && visit.noticeRead then Cache else Fetch,
            CacheIsRecent(visit) && !visit.noticeRead)
  }

  function TotalOf(targets: nat): int {
    if targets == 0 then 1 else targets
  }

  /** The updates of one visit, `st` being the status before it. */
  function VisitUpdate(st: Status, done: nat, total: int, visit: Visit): (updates: seq<Status>)
    ensures updates != []
  {
    var shown := AfterProgress(st, done, total, Some(ShownOf(visit)));
    match visit.outcome
    case LookupFailed(error) => [AfterError(st, error)]
    case FetchFailed(error) => [shown, AfterError(shown, error)]
    case Answered => [shown, AfterProgress(shown, done + 1, total, None)]
  }

  function Last(updates: seq<Status>): Status
    requires updates != []
  {
    updates[|updates| - 1]
  }

  /** The updates that a job broadcasts from its visits on. */
  function VisitUpdates(st: Status, done: nat, total: int, visits: seq<Visit>): (updates: seq<Status>)
    ensures updates != []
    decreases |visits|
  {
    if visits == [] then [AfterSuccess(st)]
    else
      var first := VisitUpdate(st, done, total, visits[0]);
      if visits[0].outcome.Answered? then first + VisitUpdates(Last(first), done + 1, total, visits[1..]) else first
  }

  /** All updates of a job: `loaded` are its targets, or the error of loading them. */
  function JobUpdates(st: Status, loaded: Result<seq<Visit>, string>): seq<Status> {
    if loaded.Failure? then [AfterError(st, loaded.error)]
    else
      var first := AfterProgress(st, 0, TotalOf(|loaded.value|), None);
      [first] + VisitUpdates(first, 0, TotalOf(|loaded.value|), loaded.value)
  }

  /** The targets are the known ones, or if there are none, those known after a refresh. */
  function Loaded(
    known: Result<seq<Visit>, string>, refreshed: Result<seq<Visit>, string>): Result<seq<Visit>, string>
  {
    if known.Success? && known.value == [] then refreshed else known
  }

  /** The request, forced or not, that a visit sends to the fetch queue. */
  function RequestOf(visit: Visit): seq<(Source, bool)> {
    if visit.outcome.LookupFailed? then [] else [(visit.source, CacheIsRecent(visit) && !visit.noticeRead)]
  }

  /** The requests of a job, up to a failing visit. */
  function RequestsOf(visits: seq<Visit>): seq<(Source, bool)> {
    if visits == [] then []
    else if visits[0].outcome.Answered? then RequestOf(visits[0]) + RequestsOf(visits[1..])
    else RequestOf(visits[0])
  }

  class CatalogRefreshManager {
    var status: Status
    var manualGate: map<string, int>
    var sent: seq<Status>

    constructor (jobId: nat)
      ensures status == Status(jobId, Idle, Manual, 0, 0, None, None) && manualGate == map[] && sent == []
    {
      status, manualGate, sent := Status(jobId, Idle, Manual, 0, 0, None, None), map[], [];
    }

    method PassManualGate(user: string, now: int) returns (ok: bool)
      modifies this`manualGate
      ensures ok <==> PassesGate(old(manualGate), user, now)
      ensures ok <==> user !in old(manualGate) || now - old(manualGate)[user] >= 30 * NANOS_PER_SECOND
      ensures manualGate == if ok then old(manualGate)[user := now] else old(manualGate)
    {
      if user in manualGate {
        var last := manualGate[user];
        if now - last < MANUAL_MIN_INTERVAL_SECONDS * NANOS_PER_SECOND {
          return false;
        }
      }
      manualGate := manualGate[user := now];
      ok := true;
    }

    /** Starts a job, unless one is running. */
    method Begin(jobId: nat, trigger: RefreshTrigger) returns (started: bool, snapshot: Status)
      modifies this`status, this`sent
      ensures started <==> !old(status).state.Running?
      ensures status == (if started then Begun(jobId, trigger) else old(status)) && snapshot == status
      ensures sent == if started then old(sent) + [snapshot] else old(sent)
    {
      if status.state == Running {
        return false, status;
      }
      status := status.(jobId := jobId, state := Running, trigger := trigger, done := 0, total := 0);
      status := status.(message := None, current := None);
      sent := sent + [status];
      return true, status;
    }

    /** A refused manual trigger leaves everything alone; an accepted one returns the running
        job's status or starts the job itself, and both count for the rate limit. */
    method Trigger(jobId: nat, trigger: RefreshTrigger, user: Option<string>, now: int)
      returns (result: Result<Status, TriggerError>)
      modifies this
      ensures var limited := trigger.Manual? && user.Some?;
              && (result.Failure? <==> limited && !PassesGate(old(manualGate), user.value, now))
              && manualGate == if limited && result.Success? then old(manualGate)[user.value := now]
                               else old(manualGate)
      ensures result.Failure? || old(status).state.Running? ==> status == old(status) && sent == old(sent)
      ensures result.Success? ==> result.value == status && status.state.Running?
      ensures result.Success? && !old(status).state.Running? ==>
                status == Begun(jobId, trigger) && sent == old(sent) + [status]
    {
      if trigger == Manual && user.Some? {
        var ok := PassManualGate(user.value, now);
        if !ok {
          return Failure(RateLimited);
        }
      }
      var started, snapshot := Begin(jobId, trigger);
      return Success(snapshot);
    }

    method FinishError(message: string)
      modifies this`status, this`sent
      ensures status == AfterError(old(status), message) && sent == old(sent) + [status]
      ensures status.state.Errored? && status.message == Some(message) && status.current.None?
    {
      status := status.(state := Errored, message := Some(message), current := None);
      sent := sent + [status];
    }

    method FinishSuccess()
      modifies this`status, this`sent
      ensures status == AfterSuccess(old(status)) && sent == old(sent) + [status]
      ensures status.state.Succeeded? && status.message.None? && status.current.None?
    {
      status := status.(state := Succeeded, message := None, current := None);
      sent := sent + [status];
    }

    method UpdateProgress(done: int, total: int, current: Option<Current>)
      modifies this`status, this`sent
      ensures status == AfterProgress(old(status), done, total, current) && sent == old(sent) + [status]
    {
      status := status.(done := done, total := total, current := current);
      sent := sent + [status];
    }

    method AnnounceVisit(done: int, total: int, visit: Visit) returns (force: bool)
      modifies this`status, this`sent
      ensures force == (CacheIsRecent(visit) && !visit.noticeRead)
      ensures status == AfterProgress(old(status), done, total, Some(ShownOf(visit)))
      ensures sent == old(sent) + [status]
    {
      var action := Fetch;
      force := false;
      if visit.cacheAge.Some? && visit.cacheAge.value <= FULL_REFRESH_CACHE_HIT_SECONDS * NANOS_PER_SECOND {
        action := Cache;
      }
      if action == Cache && !visit.noticeRead {
        action, force := Fetch, true;
      }
      UpdateProgress(done, total, Some(Current(UrlKey(visit.source), action, force)));
    }

    /** Visits one target; `request` is what it sends to the fetch queue. */
    method VisitTarget(visit: Visit, done: nat, total: int) returns (ok: bool, request: seq<(Source, bool)>)
      modifies this`status, this`sent
      ensures ok <==> visit.outcome.Answered?
      ensures sent == old(sent) + VisitUpdate(old(status), done, total, visit)
      ensures status == Last(VisitUpdate(old(status), done, total, visit))
      ensures request == RequestOf(visit)
    {
      if visit.outcome.LookupFailed? {
        FinishError(visit.outcome.error);
        return false, [];
      }
      var force := AnnounceVisit(done, total, visit);
      request := [(visit.source, force)];
      if visit.outcome.FetchFailed? {
        FinishError(visit.outcome.error);
        return false, request;
      }
      UpdateProgress(done + 1, total, None);
      ok := true;
    }

    method VisitTargets(visits: seq<Visit>, total: int) returns (requests: seq<(Source, bool)>)
      modifies this`status, this`sent
      ensures sent == old(sent) + VisitUpdates(old(status), 0, total, visits) && status == Last(sent)
      ensures requests == RequestsOf(visits)
    {
      requests := [];
      var done := 0;
      while done < |visits|
        invariant 0 <= done <= |visits|
        invariant sent + VisitUpdates(status, done, total, visits[done..])
                  == old(sent) + VisitUpdates(old(status), 0, total, visits)
        invariant requests + RequestsOf(visits[done..]) == RequestsOf(visits)
      {
        assert visits[done..][0] == visits[done] && visits[done..][1..] == visits[done + 1..];
        VisitSent(sent, status, done, total, visits[done..]);
        VisitRequested(requests, visits[done..]);
        var ok, request := VisitTarget(visits[done], done, total);
        requests := requests + request;
        if !ok {
          return;
        }
        done := done + 1;
      }
      FinishSuccess();
    }

    /** The job from its start to its last update. */
    method RunFullRefreshJob(known: Result<seq<Visit>, string>, refreshed: Result<seq<Visit>, string>)
      returns (requests: seq<(Source, bool)>)
      modifies this`status, this`sent
      ensures sent == old(sent) + JobUpdates(old(status), Loaded(known, refreshed)) && status == Last(sent)
      ensures requests == if Loaded(known, refreshed).Success? then RequestsOf(Loaded(known, refreshed).value) else []
      ensures known.Success? && known.value != [] ==> requests == RequestsOf(known.value)
      ensures known.Success? && known.value == [] && refreshed.Success? ==> requests == RequestsOf(refreshed.value)
      ensures known.Success? && known.value == [] && refreshed.Failure? ==>
                requests == [] && status.state.Errored? && status.message == Some(refreshed.error)
      ensures known.Failure? ==> requests == [] && status.state.Errored? && status.message == Some(known.error)
    {
      var loaded := known;
      if loaded.Success? && loaded.value == [] {
        loaded := refreshed;
      }
      if loaded.Failure? {
        FinishError(loaded.error);
        return [];
      }
      var total := if |loaded.value| < 1 then 1 else |loaded.value|;
      JobSent(sent, status, loaded.value);
      UpdateProgress(0, total, None);
      requests := VisitTargets(loaded.value, total);
    }
  }

  lemma JobSent(sent: seq<Status>, st: Status, visits: seq<Visit>)
    ensures var first := AfterProgress(st, 0, TotalOf(|visits|), None);
            sent + JobUpdates(st, Result.Success(visits))
              == sent + [first] + VisitUpdates(first, 0, TotalOf(|visits|), visits)
  {
    var first := AfterProgress(st, 0, TotalOf(|visits|), None);
    Regroup(sent, [first], VisitUpdates(first, 0, TotalOf(|visits|), visits));
  }

  lemma Regroup<T>(a: seq<T>, b: seq<T>, c: seq<T>)
    ensures a + (b + c) == a + b + c
  {
  }

  /** What the next visit adds to the updates. */
  lemma VisitSent(sent: seq<Status>, st: Status, done: nat, total: int, visits: seq<Visit>)
    requires visits != []
    ensures var first := VisitUpdate(st, done, total, visits[0]);
            sent + VisitUpdates(st, done, total, visits)
            == if visits[0].outcome.Answered?
               then sent + first + VisitUpdates(Last(first), done + 1, total, visits[1..])
               else sent + first
  {
    if visits[0].outcome.Answered? {
      var first := VisitUpdate(st, done, total, visits[0]);
      Regroup(sent, first, VisitUpdates(Last(first), done + 1, total, visits[1..]));
    }
  }

  lemma VisitRequested(requests: seq<(Source, bool)>, visits: seq<Visit>)
    requires visits != []
    ensures requests + RequestsOf(visits)
            == if visits[0].outcome.Answered? then requests + RequestOf(visits[0]) + RequestsOf(visits[1..])
               else requests + RequestOf(visits[0])
  {
    if visits[0].outcome.Answered? {
      Regroup(requests, RequestOf(visits[0]), RequestsOf(visits[1..]));
    }
  }

  predicate IsForced(visit: Visit) {
    visit.cacheAge.Some? && visit.cacheAge.value <= 300 * NANOS_PER_SECOND && !visit.noticeRead
  }

  /** A target is announced as a cache hit exactly if its page is at most five minutes old and the
      notice of its region was read, and as bypassing the cache exactly if its fetch is forced. */
  lemma AnnouncementsAreHonest(visit: Visit)
    ensures ShownOf(visit).urlKey == UrlKey(visit.source)
    ensures ShownOf(visit).bypassed <==> IsForced(visit)
    ensures ShownOf(visit).action == Cache
            <==> visit.cacheAge.Some? && visit.cacheAge.value <= 300 * NANOS_PER_SECOND && visit.noticeRead
    ensures visit.outcome.LookupFailed? || RequestOf(visit) == [(visit.source, ShownOf(visit).bypassed)]
  {
  }

  /** The number of targets that a job sends a request for: all up to the first that fails, and that
      one too if it was looked up. */
  function RequestedCount(visits: seq<Visit>): nat {
    if visits == [] then 0
    else match visits[0].outcome
      case LookupFailed(_) => 0
      case FetchFailed(_) => 1
      case Answered => 1 + RequestedCount(visits[1..])
  }

  /** The requests of a job, one per target in order. A fetch is forced exactly if the cached page is at
      most five minutes old and the notice of the region was never read. */
  lemma {:induction false} RequestsAreForcedExactly(visits: seq<Visit>, i: nat)
    ensures |RequestsOf(visits)| == RequestedCount(visits) <= |visits|
    ensures i < |RequestsOf(visits)| ==>
              var visit, request := visits[i], RequestsOf(visits)[i];
              request.0 == visit.source && (request.1 <==> IsForced(visit))
  {
    if visits != [] && visits[0].outcome.Answered? {
      RequestsAreForcedExactly(visits[1..], if i > 0 then i - 1 else 0);
    }
  }
}
