/** The deduplicating fetch queue: the state behind the lock, one critical section at a time. */
module FetchQueue {
  import opened Wrappers

  const POLLER_FRESHNESS_WINDOW_SECONDS := 45
  const DISCOVERY_FRESHNESS_WINDOW_SECONDS := 150
  const MANUAL_REFRESH_FRESHNESS_WINDOW_SECONDS := 300
  const AUTO_REFRESH_FRESHNESS_WINDOW_SECONDS := 300

  datatype TaskKey = TaskKey(fid: string, gid: Option<string>)

  datatype Request = Request(key: TaskKey, reason: string, forceFetch: bool, pollerUser: Option<string>)

  /** A caller waiting on a task: the sender half of its channel, with the request it came with. */
  datatype Joiner = Joiner(id: nat, request: Request)

  datatype TaskEntry = TaskEntry(
    run: Option<nat>,
    reasonCounts: map<string, nat>,
    forceFetch: bool,
    joiners: seq<Joiner>,
    pollerWaiters: set<string>)

  datatype QueueState = QueueState(deduped: nat, pending: seq<TaskKey>, tasks: map<TaskKey, TaskEntry>)

  datatype Completion = Completion(reasonCounts: map<string, nat>, joiners: seq<Joiner>)

  datatype EnqueueError = EmptyFid | EmptyReason

  function Count(counts: map<string, nat>, reason: string): nat {
    if reason in counts then counts[reason] else 0
  }

  function Bumped(counts: map<string, nat>, reason: string): map<string, nat> {
    counts[reason := Count(counts, reason) + 1]
  }

  function WaiterSet(user: Option<string>): set<string> {
    if user.Some? then {user.value} else {}
  }

  function NewEntry(joiner: Joiner): TaskEntry {
    TaskEntry(None, map[joiner.request.reason := 1], joiner.request.forceFetch, [joiner],
              WaiterSet(joiner.request.pollerUser))
  }

  function Joined(entry: TaskEntry, joiner: Joiner): TaskEntry {
    entry.(reasonCounts := Bumped(entry.reasonCounts, joiner.request.reason),
           forceFetch := entry.forceFetch || joiner.request.forceFetch,
           joiners := entry.joiners + [joiner],
           pollerWaiters := entry.pollerWaiters + WaiterSet(joiner.request.pollerUser))
  }

  function Enqueued(st: QueueState, joiner: Joiner): QueueState {
    var key := joiner.request.key;
    if key in st.tasks
    then st.(deduped := st.deduped + 1, tasks := st.tasks[key := Joined(st.tasks[key], joiner)])
    else st.(pending := st.pending + [key], tasks := st.tasks[key := NewEntry(joiner)])
  }

  function Started(st: QueueState, key: TaskKey, run: nat): QueueState
    requires key in st.tasks
  {
    st.(tasks := st.tasks[key := st.tasks[key].(run := Some(run))])
  }

  function Removed(st: QueueState, key: TaskKey): QueueState {
    st.(tasks := st.tasks - {key})
  }

  function CompletionOf(st: QueueState, key: TaskKey): Completion {
    if key in st.tasks then Completion(st.tasks[key].reasonCounts, st.tasks[key].joiners)
    else Completion(map[], [])
  }

  function ReasonWindow(reason: string): Option<int> {
    if reason == "poller_due" then Some(POLLER_FRESHNESS_WINDOW_SECONDS)
    else if reason == "discovery_due" then Some(DISCOVERY_FRESHNESS_WINDOW_SECONDS)
    else if reason == "manual_refresh" then Some(MANUAL_REFRESH_FRESHNESS_WINDOW_SECONDS)
    else if reason == "auto_refresh" then Some(AUTO_REFRESH_FRESHNESS_WINDOW_SECONDS)
    else None
  }

  /** The widest freshness window among the reasons of a task. */
  function FreshnessWindow(counts: map<string, nat>): (window: Option<int>)
    ensures forall reason :: reason in counts && ReasonWindow(reason).Some?
              ==> window.Some? && ReasonWindow(reason).value <= window.value
    ensures window.Some? ==> exists reason :: reason in counts && ReasonWindow(reason) == window
  {
    if "manual_refresh" in counts || "auto_refresh" in counts then
      assert "manual_refresh" in counts ==> ReasonWindow("manual_refresh") == Some(300);
      assert "auto_refresh" in counts ==> ReasonWindow("auto_refresh") == Some(300);
      Some(MANUAL_REFRESH_FRESHNESS_WINDOW_SECONDS)
    else if "discovery_due" in counts then
      assert ReasonWindow("discovery_due") == Some(150);
      Some(DISCOVERY_FRESHNESS_WINDOW_SECONDS)
    else if "poller_due" in counts then
      assert ReasonWindow("poller_due") == Some(45);
      Some(POLLER_FRESHNESS_WINDOW_SECONDS)
    else None
  }

  /** Whether an attempt answers from the cache, given the age of the cached result if any. */
  predicate AnswersFromCache(counts: map<string, nat>, forceFetch: bool, cacheAge: Option<int>) {
    !forceFetch && FreshnessWindow(counts).Some? && cacheAge.Some? && cacheAge.value <= FreshnessWindow(counts).value
  }

  lemma WindowsInSeconds()
    ensures ReasonWindow("poller_due") == Some(45) && ReasonWindow("discovery_due") == Some(150)
    ensures ReasonWindow("manual_refresh") == ReasonWindow("auto_refresh") == Some(300)
    ensures forall reason ::
              ReasonWindow(reason).Some?
              <==> reason in {"poller_due", "discovery_due", "manual_refresh", "auto_refresh"}
  {
  }

  /** Some reason of a task accepts a result of this age. */
  predicate SomeReasonAccepts(counts: map<string, nat>, age: int) {
    exists reason :: reason in counts && ReasonWindow(reason).Some? && age <= ReasonWindow(reason).value
  }

  /** An attempt answers from the cache exactly if nobody forced a fetch and the cached result is fresh
      enough for some reason of the task. */
  lemma AnswersFromCacheExactly(counts: map<string, nat>, forceFetch: bool, cacheAge: Option<int>)
    ensures AnswersFromCache(counts, forceFetch, cacheAge)
            <==> !forceFetch && cacheAge.Some? && SomeReasonAccepts(counts, cacheAge.value)
  {
    if cacheAge.Some? && SomeReasonAccepts(counts, cacheAge.value) {
      var reason :| reason in counts && ReasonWindow(reason).Some? && cacheAge.value <= ReasonWindow(reason).value;
      assert ReasonWindow(reason).value <= FreshnessWindow(counts).value;
    }
  }

  /** The runtime state. Each method is one region that holds the lock. */
  class Runtime {
    var deduped: nat
    var pending: seq<TaskKey>
    var tasks: map<TaskKey, TaskEntry>

    constructor ()
      ensures State() == QueueState(0, [], map[])
    {
      deduped, pending, tasks := 0, [], map[];
    }

    function State(): QueueState
      reads this
    {
      QueueState(deduped, pending, tasks)
    }

    /** Joins the key's entry or pushes a new one; says whether a worker must be notified. */
    method Enqueue(request: Request, id: nat) returns (result: Result<bool, EnqueueError>)
      modifies this
      ensures result.Failure? <==> request.key.fid == "" || request.reason == ""
      ensures result.Failure? ==> State() == old(State())
      ensures result.Success? ==>
                && State() == Enqueued(old(State()), Joiner(id, request))
                && result.value == (request.key !in old(tasks))
    {
      if request.key.fid == "" {
        return Failure(EmptyFid);
      }
      if request.reason == "" {
        return Failure(EmptyReason);
      }
      var key, joiner := request.key, Joiner(id, request);
      if key in tasks {
        deduped := deduped + 1;
        var entry := tasks[key];
        entry := entry.(reasonCounts := Bumped(entry.reasonCounts, request.reason));
        entry := entry.(forceFetch := entry.forceFetch || request.forceFetch);
        entry := entry.(joiners := entry.joiners + [joiner]);
        if request.pollerUser.Some? {
          entry := entry.(pollerWaiters := entry.pollerWaiters + {request.pollerUser.value});
        }
        assert entry.pollerWaiters == tasks[key].pollerWaiters + WaiterSet(request.pollerUser);
        tasks := tasks[key := entry];
        return Success(false);
      }
      pending := pending + [key];
      tasks := tasks[key := NewEntry(joiner)];
      return Success(true);
    }

    method PopFront() returns (key: Option<TaskKey>)
      modifies this
      ensures if old(pending) == [] then key == None && State() == old(State())
              else key == Some(old(pending)[0]) && State() == old(State()).(pending := old(pending)[1..])
    {
      if pending == [] {
        return None;
      }
      key := Some(pending[0]);
      pending := pending[1..];
    }

    /** `inserted` is the row id of the run record, or nothing if the insert failed. */
    method StartTask(key: TaskKey, inserted: Option<nat>) returns (run: Option<nat>)
      modifies this
      ensures run == if key in old(tasks) then inserted else None
      ensures State() == if run.Some? then Started(old(State()), key, run.value) else old(State())
    {
      if key !in tasks || inserted.None? {
        return None;
      }
      tasks := tasks[key := tasks[key].(run := inserted)];
      run := inserted;
    }

    method SealTaskForCompletion(key: TaskKey) returns (completion: Completion)
      modifies this
      ensures completion == CompletionOf(old(State()), key)
      ensures State() == Removed(old(State()), key)
    {
      completion := if key in tasks then Completion(tasks[key].reasonCounts, tasks[key].joiners)
        else Completion(map[], []);
      tasks := tasks - {key};
    }

    /** After a cache hit: retry if someone asked for a real fetch meanwhile. */
    method CompleteOrRetryCacheHit(key: TaskKey) returns (completion: Option<Completion>)
      modifies this
      ensures completion.None? <==> key in old(tasks) && old(tasks)[key].forceFetch
      ensures completion.None? ==> State() == old(State())
      ensures completion.Some? ==>
                completion.value == CompletionOf(old(State()), key) && State() == Removed(old(State()), key)
    {
      if key in tasks && tasks[key].forceFetch {
        return None;
      }
      var removed := SealTaskForCompletion(key);
      completion := Some(removed);
    }

    /** The cache decision at the start of an attempt; a missing entry reads as no reasons. */
    method DecideCache(key: TaskKey, cacheAge: Option<int>) returns (cached: bool)
      ensures cached <==> key in tasks && AnswersFromCache(tasks[key].reasonCounts, tasks[key].forceFetch, cacheAge)
      ensures cached <==> && key in tasks && !tasks[key].forceFetch && cacheAge.Some?
                          && SomeReasonAccepts(tasks[key].reasonCounts, cacheAge.value)
    {
      if key in tasks {
        AnswersFromCacheExactly(tasks[key].reasonCounts, tasks[key].forceFetch, cacheAge);
      }
      var counts, force := map[], false;
      if key in tasks {
        counts, force := tasks[key].reasonCounts, tasks[key].forceFetch;
      }
      cached := false;
      if !force {
        var window := FreshnessWindow(counts);
        if window.Some? && cacheAge.Some? {
          cached := cacheAge.value <= window.value;
        }
      }
    }
  }
}
