/** Whole runs of the fetch queue: enqueuers and workers interleave freely, one critical section
    or one notify operation at a time. */
module FetchQueueRuns {
  import opened Wrappers
  import opened FetchQueue

  datatype Worker =
    | Dead                                       // its upstream client could not be built
    | Awake                                      // about to pop
    | Committed                                  // popped nothing, about to wait
    | Parked                                     // waiting to be notified
    | Popped(key: TaskKey)
    | Attempting(key: TaskKey, run: nat, attempt: nat)
    | CacheHit(key: TaskKey, run: nat, attempt: nat)
    | Fetching(key: TaskKey, run: nat, attempt: nat)
    | Replying(run: nat, ok: bool, cached: bool, joiners: seq<Joiner>)
  {
    /** The span between pop and removal. */
    predicate Holds(k: TaskKey) {
      (Popped? || Attempting? || CacheHit? || Fetching?) && key == k
    }
  }

  /** What became of an accepted request. */
  datatype Fate = Waiting | Taken(worker: nat) | Answered(run: nat, ok: bool, cached: bool)

  /** `permit` is the stored notification and `owed` counts the enqueuers that pushed a key and
      have not notified yet. The last five components only record history. */
  datatype System = System(
    queue: QueueState,
    workers: seq<Worker>,
    permit: bool,
    owed: nat,
    nextRun: nat,
    requests: seq<Request>,
    fates: seq<Fate>,
    created: nat,
    startFailed: set<TaskKey>)

  datatype Step =
    | Enqueue(request: Request)
    | WakeWaiter(w: nat)
    | StorePermit
    | Pop(w: nat)
    | Wait(w: nat)
    | Start(w: nat, inserted: bool)
    | Attempt(w: nat, cacheAge: Option<int>)
    | CompleteOrRetry(w: nat)
    | Seal(w: nat, ok: bool)
    | Reply(w: nat)

  predicate Initial(s: System) {
    && s.queue == QueueState(0, [], map[])
    && (forall w :: 0 <= w < |s.workers| ==> s.workers[w].Awake? || s.workers[w].Dead?)
    && !s.permit && s.owed == 0
    && s.requests == [] && s.fates == [] && s.created == 0 && s.startFailed == {}
  }

  predicate SomeoneParked(s: System) {
    exists w :: 0 <= w < |s.workers| && s.workers[w].Parked?
  }

  predicate Enabled(s: System, step: Step) {
    match step
    case Enqueue(request) => request.key.fid != "" && request.reason != ""
    case WakeWaiter(w) => s.owed > 0 && w < |s.workers| && s.workers[w].Parked?
    case StorePermit => s.owed > 0 && !SomeoneParked(s)
    case Pop(w) => w < |s.workers| && s.workers[w].Awake?
    case Wait(w) => w < |s.workers| && s.workers[w].Committed?
    case Start(w, _) => w < |s.workers| && s.workers[w].Popped?
    case Attempt(w, _) => w < |s.workers| && s.workers[w].Attempting?
    case CompleteOrRetry(w) => w < |s.workers| && s.workers[w].CacheHit?
    case Seal(w, _) => w < |s.workers| && s.workers[w].Fetching?
    case Reply(w) => w < |s.workers| && s.workers[w].Replying?
  }

  predicate Has(joiners: seq<Joiner>, id: nat) {
    exists i :: 0 <= i < |joiners| && joiners[i].id == id
  }

  function Refated(fates: seq<Fate>, joiners: seq<Joiner>, fate: Fate): (r: seq<Fate>)
    ensures |r| == |fates|
    ensures forall id :: 0 <= id < |fates| ==> r[id] == if Has(joiners, id) then fate else fates[id]
  {
    seq(|fates|, id requires 0 <= id < |fates| => if Has(joiners, id) then fate else fates[id])
  }

  function To(s: System, w: nat, worker: Worker): System
    requires w < |s.workers|
  {
    s.(workers := s.workers[w := worker])
  }

  /** Removing the entry takes over its joiners. */
  function Complete(s: System, w: nat, key: TaskKey, run: nat, ok: bool, cached: bool): System
    requires w < |s.workers|
  {
    var joiners := CompletionOf(s.queue, key).joiners;
    To(s, w, Replying(run, ok, cached, joiners))
      .(queue := Removed(s.queue, key), fates := Refated(s.fates, joiners, Taken(w)))
  }

  function Next(s: System, step: Step): System
    requires Enabled(s, step)
  {
    match step
    case Enqueue(request) =>
      var isNew := request.key !in s.queue.tasks;
      s.(queue := Enqueued(s.queue, Joiner(|s.requests|, request)),
         requests := s.requests + [request],
         fates := s.fates + [Waiting],
         owed := if isNew then s.owed + 1 else s.owed,
         created := if isNew then s.created + 1 else s.created)
    case WakeWaiter(w) => To(s, w, Awake).(owed := s.owed - 1)
    case StorePermit => s.(owed := s.owed - 1, permit := true)
    case Pop(w) =>
      if s.queue.pending == [] then To(s, w, Committed)
      else To(s, w, Popped(s.queue.pending[0])).(queue := s.queue.(pending := s.queue.pending[1..]))
    case Wait(w) => if s.permit then To(s, w, Awake).(permit := false) else To(s, w, Parked)
    case Start(w, inserted) =>
      var key := s.workers[w].key;
      if inserted && key in s.queue.tasks
      then To(s, w, Attempting(key, s.nextRun, 1)).(queue := Started(s.queue, key, s.nextRun), nextRun := s.nextRun + 1)
      else To(s, w, Awake).(startFailed := s.startFailed + {key})
    case Attempt(w, cacheAge) =>
      var Attempting(key, run, attempt) := s.workers[w];
      if key in s.queue.tasks
         && AnswersFromCache(s.queue.tasks[key].reasonCounts, s.queue.tasks[key].forceFetch, cacheAge)
      then To(s, w, CacheHit(key, run, attempt)) else To(s, w, Fetching(key, run, attempt))
    case CompleteOrRetry(w) =>
      var CacheHit(key, run, attempt) := s.workers[w];
      if key in s.queue.tasks && s.queue.tasks[key].forceFetch then To(s, w, Attempting(key, run, attempt + 1))
      else Complete(s, w, key, run, true, true)
    case Seal(w, ok) => Complete(s, w, s.workers[w].key, s.workers[w].run, ok, false)
    case Reply(w) =>
      var Replying(run, ok, cached, joiners) := s.workers[w];
      To(s, w, Awake).(fates := Refated(s.fates, joiners, Answered(run, ok, cached)))
  }

  predicate Leads(s: System, steps: seq<Step>, t: System)
    decreases |steps|
  {
    if steps == [] then s == t else Enabled(s, steps[0]) && Leads(Next(s, steps[0]), steps[1..], t)
  }

  ghost predicate Reachable(t: System) {
    exists s, steps :: Initial(s) && Leads(s, steps, t)
  }

  // Exclusive ownership.

  predicate Held(s: System, key: TaskKey) {
    exists w :: 0 <= w < |s.workers| && s.workers[w].Holds(key)
  }

  /** The keys of `tasks` are the disjoint union of the queue's keys, the keys held by exactly
      one worker, and the keys whose start failed. */
  ghost predicate Ownership(s: System) {
    && (forall i, j :: 0 <= i < j < |s.queue.pending| ==> s.queue.pending[i] != s.queue.pending[j])
    && (forall v, w, key :: 0 <= v < w < |s.workers| && s.workers[v].Holds(key) ==> !s.workers[w].Holds(key))
    && (forall key :: key in s.queue.tasks <==> key in s.queue.pending || Held(s, key) || key in s.startFailed)
    && (forall key :: key in s.queue.pending ==> !Held(s, key) && key !in s.startFailed)
    && (forall key :: key in s.startFailed ==> !Held(s, key))
  }

  lemma OwnershipStep(s: System, step: Step)
    requires Ownership(s) && Enabled(s, step)
    ensures Ownership(Next(s, step))
  {
    hide Ownership, Next, Enabled;
    match step
    case Enqueue(request) => EnqueueOwnership(s, request);
    case StorePermit => PermitOwnership(s);
    case Pop(w) => PopOwnership(s, w);
    case WakeWaiter(w) => IdleOwnership(s, step, w);
    case Wait(w) => IdleOwnership(s, step, w);
    case Reply(w) => IdleOwnership(s, step, w);
    case Attempt(w, _) => HolderOwnership(s, step, w);
    case Start(w, _) => HolderOwnership(s, step, w);
    case CompleteOrRetry(w) => HolderOwnership(s, step, w);
    case Seal(w, _) => HolderOwnership(s, step, w);
  }

  lemma PermitOwnership(s: System)
    requires Ownership(s) && Enabled(s, StorePermit)
    ensures Ownership(Next(s, StorePermit))
  {
    SameWorkers(s, Next(s, StorePermit));
  }

  /** The steps of a worker that holds no key before or after. */
  lemma IdleOwnership(s: System, step: Step, w: nat)
    requires Ownership(s) && Enabled(s, step)
    requires step == WakeWaiter(w) || step == Wait(w) || step == Reply(w)
    ensures Ownership(Next(s, step))
  {
    hide Ownership;
    KeepsOwnership(s, Next(s, step), w);
  }

  /** The steps of a worker that holds a key. */
  lemma HolderOwnership(s: System, step: Step, w: nat)
    requires Ownership(s) && Enabled(s, step)
    requires (step.Attempt? || step.Start? || step.CompleteOrRetry? || step.Seal?) && step.w == w
    ensures Ownership(Next(s, step))
  {
    hide Ownership, Held;
    var t := Next(s, step);
    HolderHasItsTask(s, w, s.workers[w].key);
    if t.workers[w].Holds(s.workers[w].key) {
      KeepsOwnership(s, t, w);
    } else {
      ReleaseOwnership(s, t, w);
    }
  }

  lemma HolderHasItsTask(s: System, w: nat, key: TaskKey)
    requires Ownership(s) && w < |s.workers| && s.workers[w].Holds(key)
    ensures Held(s, key) && key in s.queue.tasks
  {
  }

  lemma SameWorkers(s: System, t: System)
    requires t.workers == s.workers
    ensures forall key :: Held(t, key) <==> Held(s, key)
  {
  }

  lemma EnqueueOwnership(s: System, request: Request)
    requires Ownership(s) && Enabled(s, Enqueue(request))
    ensures Ownership(Next(s, Enqueue(request)))
  {
    var t := Next(s, Enqueue(request));
    SameWorkers(s, t);
    assert t.queue.pending == if request.key in s.queue.tasks then s.queue.pending else s.queue.pending + [request.key];
  }

  lemma PopOwnership(s: System, w: nat)
    requires Ownership(s) && Enabled(s, Pop(w))
    ensures Ownership(Next(s, Pop(w)))
  {
    var t := Next(s, Pop(w));
    if s.queue.pending == [] {
      KeepsOwnership(s, t, w);
    } else {
      var popped := s.queue.pending[0];
      assert forall key :: key in s.queue.pending <==> key == popped || key in t.queue.pending;
      assert popped in s.queue.pending && t.workers[w].Holds(popped);
      assert forall v :: 0 <= v < |s.workers| && s.workers[v].Holds(popped) ==> Held(s, popped);
      assert forall key :: Held(t, key) ==> key == popped || Held(s, key);
      assert forall v, key :: 0 <= v < |s.workers| && s.workers[v].Holds(key) ==> t.workers[v].Holds(key);
    }
  }

  predicate OnlyWorkerChanged(s: System, t: System, w: nat) {
    && w < |s.workers| == |t.workers|
    && (forall v :: 0 <= v < |s.workers| && v != w ==> t.workers[v] == s.workers[v])
  }

  /** A step that neither takes nor gives up a key keeps ownership. */
  lemma KeepsOwnership(s: System, t: System, w: nat)
    requires Ownership(s) && OnlyWorkerChanged(s, t, w)
    requires forall key :: t.workers[w].Holds(key) <==> s.workers[w].Holds(key)
    requires t.queue.pending == s.queue.pending && t.queue.tasks.Keys == s.queue.tasks.Keys
    requires t.startFailed == s.startFailed
    ensures Ownership(t)
  {
    SameHolders(s, t, w);
  }

  /** A step that gives up a held key, by removing its task or by failing to start it. */
  lemma ReleaseOwnership(s: System, t: System, w: nat)
    requires Ownership(s) && OnlyWorkerChanged(s, t, w)
    requires s.workers[w].Popped? || s.workers[w].CacheHit? || s.workers[w].Fetching?
    requires t.workers[w].Awake? || t.workers[w].Replying?
    requires t.queue.pending == s.queue.pending
    requires || (t.queue.tasks.Keys == s.queue.tasks.Keys - {s.workers[w].key} && t.startFailed == s.startFailed)
             || (t.queue.tasks.Keys == s.queue.tasks.Keys && t.startFailed == s.startFailed + {s.workers[w].key})
    ensures Ownership(t)
  {
    assert s.workers[w].Holds(s.workers[w].key) && Held(s, s.workers[w].key);
    Released(s, t, w);
    assert forall v, key :: 0 <= v < |t.workers| && t.workers[v].Holds(key) ==> s.workers[v].Holds(key);
  }

  lemma SameHolders(s: System, t: System, w: nat)
    requires OnlyWorkerChanged(s, t, w)
    requires forall key :: t.workers[w].Holds(key) <==> s.workers[w].Holds(key)
    ensures forall v, key :: 0 <= v < |s.workers| ==> (t.workers[v].Holds(key) <==> s.workers[v].Holds(key))
    ensures forall key :: Held(t, key) <==> Held(s, key)
  {
    forall key
      ensures Held(t, key) <==> Held(s, key)
    {
      if v :| 0 <= v < |s.workers| && s.workers[v].Holds(key) {
        assert t.workers[v].Holds(key);
      }
      if v :| 0 <= v < |t.workers| && t.workers[v].Holds(key) {
        assert s.workers[v].Holds(key);
      }
    }
  }

  lemma Released(s: System, t: System, w: nat)
    requires Ownership(s) && OnlyWorkerChanged(s, t, w)
    requires s.workers[w].Popped? || s.workers[w].CacheHit? || s.workers[w].Fetching?
    requires t.workers[w].Awake? || t.workers[w].Replying?
    ensures forall key :: Held(t, key) <==> Held(s, key) && key != s.workers[w].key
  {
    assert s.workers[w].Holds(s.workers[w].key);
    forall key
      ensures Held(t, key) <==> Held(s, key) && key != s.workers[w].key
    {
      if v :| 0 <= v < |t.workers| && t.workers[v].Holds(key) {
        assert s.workers[v].Holds(key);
      }
      if v :| 0 <= v < |s.workers| && s.workers[v].Holds(key) && key != s.workers[w].key {
        assert t.workers[v].Holds(key);
      }
    }
  }

  // Wakeups.

  /** A worker that will pop again without being notified. */
  predicate WillPop(worker: Worker) {
    !worker.Dead? && !worker.Committed? && !worker.Parked?
  }

  /** Work in the queue is always seen by someone: an enqueuer that still owes its notification,
      the stored permit, or a worker that will pop again. */
  ghost predicate Wakeup(s: System) {
    && (s.queue.pending != [] ==> s.owed > 0 || s.permit || exists w :: 0 <= w < |s.workers| && WillPop(s.workers[w]))
    && (s.permit ==> !SomeoneParked(s))
  }

  lemma WakeupStep(s: System, step: Step)
    requires Wakeup(s) && Enabled(s, step)
    ensures Wakeup(Next(s, step))
  {
    var t := Next(s, step);
    if step.Enqueue? || step.StorePermit? {
      assert t.workers == s.workers;
    } else {
      assert SomeoneParked(t) ==> SomeoneParked(s) || (step.Wait? && !s.permit);
      assert WillPop(t.workers[step.w]) || step.Pop? || step.Wait?;
      if v :| 0 <= v < |s.workers| && WillPop(s.workers[v]) {
        assert v != step.w ==> WillPop(t.workers[v]);
      }
    }
  }

  // Each entry is an exact summary of its joiners.

  function CountReason(joiners: seq<Joiner>, reason: string): nat {
    if joiners == [] then 0
    else CountReason(joiners[..|joiners| - 1], reason)
         + (if joiners[|joiners| - 1].request.reason == reason then 1 else 0)
  }

  ghost predicate Summarizes(entry: TaskEntry) {
    && entry.joiners != []
    && (forall reason :: Count(entry.reasonCounts, reason) == CountReason(entry.joiners, reason))
    && (entry.forceFetch <==> exists i :: 0 <= i < |entry.joiners| && entry.joiners[i].request.forceFetch)
    && (forall user :: user in entry.pollerWaiters
          <==> exists i :: 0 <= i < |entry.joiners| && entry.joiners[i].request.pollerUser == Some(user))
  }

  lemma NewEntrySummarizes(joiner: Joiner)
    ensures Summarizes(NewEntry(joiner))
  {
    var entry := NewEntry(joiner);
    assert entry.joiners[0] == joiner && entry.joiners[..0] == [];
  }

  lemma JoinedSummarizes(entry: TaskEntry, joiner: Joiner)
    requires Summarizes(entry)
    ensures Summarizes(Joined(entry, joiner))
  {
    var joined := Joined(entry, joiner);
    var n := |entry.joiners|;
    assert joined.joiners[..n] == entry.joiners && joined.joiners[n] == joiner;
    assert forall i :: 0 <= i < n ==> joined.joiners[i] == entry.joiners[i];
  }

  ghost predicate Summaries(s: System) {
    && (forall key :: key in s.queue.tasks ==> Summarizes(s.queue.tasks[key]))
    && |s.requests| == s.queue.deduped + s.created
  }

  lemma EnqueueSummaries(s: System, request: Request)
    requires Summaries(s) && Enabled(s, Enqueue(request))
    ensures Summaries(Next(s, Enqueue(request)))
  {
    var joiner := Joiner(|s.requests|, request);
    NewEntrySummarizes(joiner);
    if request.key in s.queue.tasks {
      JoinedSummarizes(s.queue.tasks[request.key], joiner);
    }
  }

  lemma SummariesStep(s: System, step: Step)
    requires Summaries(s) && Enabled(s, step)
    ensures Summaries(Next(s, step))
  {
    if step.Enqueue? {
      EnqueueSummaries(s, step.request);
    } else if step.Start? && s.workers[step.w].key in s.queue.tasks {
      var entry := s.queue.tasks[s.workers[step.w].key];
      assert Summarizes(entry.(run := Some(s.nextRun)));
    }
  }

  // Force flags, attempts and runs.

  ghost predicate RunsWell(s: System, w: nat)
    requires w < |s.workers|
  {
    match s.workers[w]
    case Attempting(key, run, attempt) =>
      run < s.nextRun && key in s.queue.tasks && 1 <= attempt <= 2 && (attempt == 2 ==> s.queue.tasks[key].forceFetch)
    case CacheHit(key, run, attempt) => run < s.nextRun && key in s.queue.tasks && attempt == 1
    case Fetching(key, run, attempt) => run < s.nextRun && key in s.queue.tasks && 1 <= attempt <= 2
    case Replying(run, ok, cached, joiners) =>
      run < s.nextRun && (cached ==> ok && forall i :: 0 <= i < |joiners| ==> !joiners[i].request.forceFetch)
    case _ => true
  }

  ghost predicate Attempts(s: System) {
    forall w :: 0 <= w < |s.workers| ==> RunsWell(s, w)
  }

  /** A key held by another worker keeps its task, and its force flag only rises. */
  lemma OthersKeepTheirTasks(s: System, step: Step, v: nat, key: TaskKey)
    requires Ownership(s) && Enabled(s, step)
    requires v < |s.workers| && s.workers[v].Holds(key)
    requires step.Enqueue? || step.StorePermit? || step.w != v
    ensures key in s.queue.tasks && key in Next(s, step).queue.tasks
    ensures s.queue.tasks[key].forceFetch ==> Next(s, step).queue.tasks[key].forceFetch
  {
    assert Held(s, key);
    if step.CompleteOrRetry? || step.Seal? {
      assert s.workers[step.w].Holds(s.workers[step.w].key);
    }
  }

  lemma OthersRunWell(s: System, step: Step, v: nat)
    requires Ownership(s) && Attempts(s) && Enabled(s, step)
    requires v < |s.workers|
    requires step.Enqueue? || step.StorePermit? || step.w != v
    ensures RunsWell(Next(s, step), v)
  {
    assert RunsWell(s, v) && Next(s, step).workers[v] == s.workers[v];
    if s.workers[v].Attempting? || s.workers[v].CacheHit? || s.workers[v].Fetching? {
      assert s.workers[v].Holds(s.workers[v].key);
      OthersKeepTheirTasks(s, step, v, s.workers[v].key);
    }
  }

  lemma AttemptsStep(s: System, step: Step)
    requires Ownership(s) && Summaries(s) && Attempts(s) && Enabled(s, step)
    ensures Attempts(Next(s, step))
  {
    var t := Next(s, step);
    forall v | 0 <= v < |t.workers|
      ensures RunsWell(t, v)
    {
      if step.Enqueue? || step.StorePermit? || step.w != v {
        OthersRunWell(s, step, v);
      } else {
        OwnRunsWell(s, step);
      }
    }
  }

  lemma OwnRunsWell(s: System, step: Step)
    requires Summaries(s) && Attempts(s) && Enabled(s, step)
    requires !step.Enqueue? && !step.StorePermit?
    ensures RunsWell(Next(s, step), step.w)
  {
    assert RunsWell(s, step.w);
    if step.CompleteOrRetry? {
      assert Summarizes(s.queue.tasks[s.workers[step.w].key]);
    }
  }

  // Where each accepted request is.

  /** The joiners are distinct accepted requests for one key, all with the same fate. */
  ghost predicate Placed(s: System, joiners: seq<Joiner>, fate: Fate) {
    && (forall i :: 0 <= i < |joiners| ==>
          && joiners[i].id < |s.requests| == |s.fates|
          && s.requests[joiners[i].id] == joiners[i].request
          && s.fates[joiners[i].id] == fate)
    && (forall i, j :: 0 <= i < j < |joiners| ==> joiners[i].id != joiners[j].id)
    && (forall i, j :: 0 <= i < j < |joiners| ==> joiners[i].request.key == joiners[j].request.key)
  }

  ghost predicate EntriesPlaced(s: System) {
    forall key :: key in s.queue.tasks ==>
      && Placed(s, s.queue.tasks[key].joiners, Waiting)
      && (forall i :: 0 <= i < |s.queue.tasks[key].joiners| ==> s.queue.tasks[key].joiners[i].request.key == key)
  }

  ghost predicate RepliesPlaced(s: System) {
    forall w :: 0 <= w < |s.workers| && s.workers[w].Replying? ==> Placed(s, s.workers[w].joiners, Taken(w))
  }

  ghost predicate FateFound(s: System, id: nat)
    requires id < |s.requests| == |s.fates|
  {
    match s.fates[id]
    case Waiting => s.requests[id].key in s.queue.tasks && Has(s.queue.tasks[s.requests[id].key].joiners, id)
    case Taken(w) => w < |s.workers| && s.workers[w].Replying? && Has(s.workers[w].joiners, id)
    case Answered(_, _, _) => true
  }

  /** Every accepted request is in exactly one place: a task's entry, the hands of the worker
      that removed the entry, or answered. */
  ghost predicate Located(s: System) {
    && |s.fates| == |s.requests|
    && EntriesPlaced(s)
    && RepliesPlaced(s)
    && forall id :: 0 <= id < |s.fates| ==> FateFound(s, id)
  }

  lemma LocatedStep(s: System, step: Step)
    requires Located(s) && Summaries(s) && Enabled(s, step)
    ensures Located(Next(s, step))
  {
    match step
    case Enqueue(request) => EnqueueLocated(s, request);
    case CompleteOrRetry(w) =>
      var key := s.workers[w].key;
      if key in s.queue.tasks && s.queue.tasks[key].forceFetch {
        FrameLocated(s, step);
      } else {
        CompleteLocated(s, step, w);
      }
    case Seal(w, ok) => CompleteLocated(s, step, w);
    case Reply(w) => ReplyLocated(s, w);
    case _ => FrameLocated(s, step);
  }

  /** The same joiners in the same places. */
  ghost predicate SamePlaces(s: System, t: System) {
    && t.requests == s.requests && t.fates == s.fates && |t.workers| == |s.workers|
    && t.queue.tasks.Keys == s.queue.tasks.Keys
    && (forall key :: key in s.queue.tasks ==> t.queue.tasks[key].joiners == s.queue.tasks[key].joiners)
    && (forall w :: 0 <= w < |s.workers| ==>
          (t.workers[w].Replying? <==> s.workers[w].Replying?)
            && (s.workers[w].Replying? ==> t.workers[w] == s.workers[w]))
  }

  lemma SamePlacesLocated(s: System, t: System)
    requires Located(s) && SamePlaces(s, t)
    ensures Located(t)
  {
    forall id | 0 <= id < |t.fates|
      ensures FateFound(t, id)
    {
      assert FateFound(s, id);
    }
    forall w | 0 <= w < |t.workers| && t.workers[w].Replying?
      ensures Placed(t, t.workers[w].joiners, Taken(w))
    {
      assert Placed(s, s.workers[w].joiners, Taken(w));
    }
    forall key | key in t.queue.tasks
      ensures Placed(t, t.queue.tasks[key].joiners, Waiting)
    {
      assert Placed(s, s.queue.tasks[key].joiners, Waiting);
    }
  }

  lemma FrameLocated(s: System, step: Step)
    requires Located(s) && Enabled(s, step)
    requires !step.Enqueue? && !step.Seal? && !step.Reply?
    requires step.CompleteOrRetry? ==>
               s.workers[step.w].key in s.queue.tasks && s.queue.tasks[s.workers[step.w].key].forceFetch
    ensures Located(Next(s, step))
  {
    var t := Next(s, step);
    assert SamePlaces(s, t);
    SamePlacesLocated(s, t);
  }

  lemma EnqueuePlaced(s: System, request: Request, joiners: seq<Joiner>, fate: Fate)
    requires |s.fates| == |s.requests| && Enabled(s, Enqueue(request)) && Placed(s, joiners, fate)
    ensures Placed(Next(s, Enqueue(request)), joiners, fate)
  {
  }

  lemma AppendPlaced(s: System, joiners: seq<Joiner>, joiner: Joiner, fate: Fate)
    requires Placed(s, joiners, fate)
    requires joiner.id < |s.requests| == |s.fates| && s.requests[joiner.id] == joiner.request
             && s.fates[joiner.id] == fate
    requires forall i :: 0 <= i < |joiners| ==>
               joiners[i].id != joiner.id && joiners[i].request.key == joiner.request.key
    ensures Placed(s, joiners + [joiner], fate)
  {
  }

  /** The entry that the new joiner joins, or its new entry. */
  lemma EnqueueEntry(s: System, request: Request)
    requires Located(s) && Enabled(s, Enqueue(request))
    ensures var t := Next(s, Enqueue(request));
            && Placed(t, t.queue.tasks[request.key].joiners, Waiting)
            && forall i :: 0 <= i < |t.queue.tasks[request.key].joiners| ==>
                 t.queue.tasks[request.key].joiners[i].request.key == request.key
  {
    var t := Next(s, Enqueue(request));
    var before := if request.key in s.queue.tasks then s.queue.tasks[request.key].joiners else [];
    assert t.queue.tasks[request.key].joiners == before + [Joiner(|s.requests|, request)];
    EnqueuePlaced(s, request, before, Waiting);
    AppendPlaced(t, before, Joiner(|s.requests|, request), Waiting);
  }

  lemma EnqueueEntries(s: System, request: Request)
    requires Located(s) && Enabled(s, Enqueue(request))
    ensures EntriesPlaced(Next(s, Enqueue(request)))
  {
    var t := Next(s, Enqueue(request));
    EnqueueEntry(s, request);
    forall key | key in t.queue.tasks && key != request.key
      ensures Placed(t, t.queue.tasks[key].joiners, Waiting)
    {
      assert t.queue.tasks[key] == s.queue.tasks[key];
      EnqueuePlaced(s, request, s.queue.tasks[key].joiners, Waiting);
    }
  }

  lemma EnqueueFate(s: System, request: Request, id: nat)
    requires Located(s) && Enabled(s, Enqueue(request)) && id <= |s.requests|
    ensures FateFound(Next(s, Enqueue(request)), id)
  {
    var t := Next(s, Enqueue(request));
    var joiners := t.queue.tasks[request.key].joiners;
    if id == |s.requests| {
      assert joiners[|joiners| - 1].id == id;
    } else {
      assert FateFound(s, id);
      if s.fates[id].Waiting? {
        var key := s.requests[id].key;
        var i :| 0 <= i < |s.queue.tasks[key].joiners| && s.queue.tasks[key].joiners[i].id == id;
        assert t.queue.tasks[key].joiners[i].id == id;
      }
    }
  }

  lemma EnqueueLocated(s: System, request: Request)
    requires Located(s) && Enabled(s, Enqueue(request))
    ensures Located(Next(s, Enqueue(request)))
  {
    var t := Next(s, Enqueue(request));
    EnqueueEntries(s, request);
    forall w | 0 <= w < |t.workers| && t.workers[w].Replying?
      ensures Placed(t, t.workers[w].joiners, Taken(w))
    {
      EnqueuePlaced(s, request, s.workers[w].joiners, Taken(w));
    }
    forall id | 0 <= id < |t.fates|
      ensures FateFound(t, id)
    {
      EnqueueFate(s, request, id);
    }
  }

  predicate Completes(s: System, step: Step, w: nat) {
    && Enabled(s, step)
    && (step == CompleteOrRetry(w) || (step.Seal? && step.w == w))
    && (step == CompleteOrRetry(w) ==>
          !(s.workers[w].key in s.queue.tasks && s.queue.tasks[s.workers[w].key].forceFetch))
  }

  /** The joiners of other entries are not those of the removed one. */
  lemma CompleteEntries(s: System, step: Step, w: nat)
    requires Located(s) && Completes(s, step, w)
    ensures EntriesPlaced(Next(s, step))
  {
    var t := Next(s, step);
    var key := s.workers[w].key;
    var joiners := CompletionOf(s.queue, key).joiners;
    assert forall i :: 0 <= i < |joiners| ==> joiners[i].request.key == key;
    forall other | other in t.queue.tasks
      ensures Placed(t, t.queue.tasks[other].joiners, Waiting)
    {
      var others := t.queue.tasks[other].joiners;
      assert Placed(s, others, Waiting) && Placed(s, joiners, Waiting);
      forall i | 0 <= i < |others|
        ensures !Has(joiners, others[i].id)
      {
        assert others[i].request.key == other;
      }
    }
  }

  lemma CompleteReplies(s: System, step: Step, w: nat)
    requires Located(s) && Completes(s, step, w)
    ensures RepliesPlaced(Next(s, step))
  {
    var t := Next(s, step);
    var joiners := CompletionOf(s.queue, s.workers[w].key).joiners;
    assert Placed(s, joiners, Waiting);
    assert forall i :: 0 <= i < |joiners| ==> Has(joiners, joiners[i].id);
    forall v | 0 <= v < |t.workers| && t.workers[v].Replying?
      ensures Placed(t, t.workers[v].joiners, Taken(v))
    {
      if v != w {
        assert Placed(s, s.workers[v].joiners, Taken(v));
      }
    }
  }

  lemma CompleteFates(s: System, step: Step, w: nat, id: nat)
    requires Located(s) && Completes(s, step, w) && id < |s.fates|
    ensures FateFound(Next(s, step), id)
  {
    var joiners := CompletionOf(s.queue, s.workers[w].key).joiners;
    assert FateFound(s, id) && Placed(s, joiners, Waiting);
  }

  lemma CompleteLocated(s: System, step: Step, w: nat)
    requires Located(s) && Completes(s, step, w)
    ensures Located(Next(s, step))
  {
    CompleteEntries(s, step, w);
    CompleteReplies(s, step, w);
    forall id | 0 <= id < |s.fates|
      ensures FateFound(Next(s, step), id)
    {
      CompleteFates(s, step, w, id);
    }
  }

  lemma ReplyLocated(s: System, w: nat)
    requires Located(s) && Enabled(s, Reply(w))
    ensures Located(Next(s, Reply(w)))
  {
    var t := Next(s, Reply(w));
    var joiners := s.workers[w].joiners;
    assert Placed(s, joiners, Taken(w));
    forall key | key in t.queue.tasks
      ensures Placed(t, t.queue.tasks[key].joiners, Waiting)
    {
      assert Placed(s, s.queue.tasks[key].joiners, Waiting);
    }
    forall v | 0 <= v < |t.workers| && t.workers[v].Replying?
      ensures Placed(t, t.workers[v].joiners, Taken(v))
    {
      assert Placed(s, s.workers[v].joiners, Taken(v));
    }
    forall id | 0 <= id < |t.fates|
      ensures FateFound(t, id)
    {
      assert FateFound(s, id);
    }
  }

  // Runs and answers.

  function RunOf(worker: Worker): Option<nat> {
    if worker.Attempting? || worker.CacheHit? || worker.Fetching? || worker.Replying? then Some(worker.run) else None
  }

  /** A run belongs to one worker at a time, and once answered to none; requests answered by one
      run are requests for one key with one outcome; a cached answer never reaches a request that
      asked for a real fetch. */
  ghost predicate Answers(s: System) {
    && |s.fates| == |s.requests|
    && (forall v, w :: 0 <= v < w < |s.workers| && RunOf(s.workers[v]).Some? ==>
          RunOf(s.workers[v]) != RunOf(s.workers[w]))
    && (forall w :: 0 <= w < |s.workers| && RunOf(s.workers[w]).Some? ==> RunOf(s.workers[w]).value < s.nextRun)
    && (forall id :: 0 <= id < |s.fates| && s.fates[id].Answered? ==>
          && s.fates[id].run < s.nextRun
          && (forall w :: 0 <= w < |s.workers| ==> RunOf(s.workers[w]) != Some(s.fates[id].run))
          && (s.fates[id].cached ==> s.fates[id].ok && !s.requests[id].forceFetch))
    && (forall a, b ::
          0 <= a < b < |s.fates| && s.fates[a].Answered? && s.fates[b].Answered? && s.fates[a].run == s.fates[b].run
          ==> s.fates[a] == s.fates[b] && s.requests[a].key == s.requests[b].key)
  }

  /** Nothing answered, and no run started or ended. */
  ghost predicate SameAnswers(s: System, t: System) {
    && |s.fates| == |s.requests| <= |t.requests| == |t.fates|
    && |t.workers| == |s.workers| && t.nextRun == s.nextRun
    && (forall w :: 0 <= w < |s.workers| ==> RunOf(t.workers[w]) == RunOf(s.workers[w]))
    && (forall id :: 0 <= id < |s.requests| ==> t.requests[id] == s.requests[id])
    && (forall id :: 0 <= id < |t.fates| && t.fates[id].Answered? ==> id < |s.fates| && t.fates[id] == s.fates[id])
  }

  lemma SameAnswersKeep(s: System, t: System)
    requires Answers(s) && SameAnswers(s, t)
    ensures Answers(t)
  {
  }

  lemma StartAnswers(s: System, step: Step)
    requires Answers(s) && step.Start? && Enabled(s, step)
    ensures Answers(Next(s, step))
  {
    var t := Next(s, step);
    assert forall v :: 0 <= v < |s.workers| && v != step.w ==> t.workers[v] == s.workers[v];
    assert t.fates == s.fates && t.requests == s.requests;
    assert RunOf(t.workers[step.w]) == None || RunOf(t.workers[step.w]) == Some(s.nextRun);
  }

  lemma OtherStepsAnswerNothing(s: System, step: Step)
    requires Located(s) && Enabled(s, step) && !step.Reply? && !step.Start?
    ensures SameAnswers(s, Next(s, step))
  {
  }

  lemma AnswersStep(s: System, step: Step)
    requires Answers(s) && Located(s) && Attempts(s) && Enabled(s, step)
    ensures Answers(Next(s, step))
  {
    hide Next, Answers, Located, Attempts, SameAnswers;
    if step.Reply? {
      ReplyAnswers(s, step.w);
    } else if step.Start? {
      StartAnswers(s, step);
    } else {
      OtherStepsAnswerNothing(s, step);
      SameAnswersKeep(s, Next(s, step));
    }
  }

  /** All requests that one reply answers are for one key, and none forced a fetch if it is cached. */
  lemma RepliesAgree(s: System, w: nat, a: nat, b: nat)
    requires Located(s) && Attempts(s) && Enabled(s, Reply(w))
    requires Has(s.workers[w].joiners, a) && Has(s.workers[w].joiners, b)
    ensures a < |s.requests| && b < |s.requests| && s.requests[a].key == s.requests[b].key
    ensures s.workers[w].cached ==> s.workers[w].ok && !s.requests[a].forceFetch
  {
    var joiners := s.workers[w].joiners;
    assert RunsWell(s, w) && Placed(s, joiners, Taken(w));
    var i :| 0 <= i < |joiners| && joiners[i].id == a;
    var j :| 0 <= j < |joiners| && joiners[j].id == b;
    assert i < j || i == j || j < i;
  }

  /** Its run was still open. */
  lemma RunIsOpen(s: System, w: nat)
    requires Answers(s) && Attempts(s) && Enabled(s, Reply(w))
    ensures var run := s.workers[w].run;
            && run < s.nextRun
            && (forall v :: 0 <= v < |s.workers| && v != w ==> RunOf(s.workers[v]) != Some(run))
            && (forall id :: 0 <= id < |s.fates| && s.fates[id].Answered? ==> s.fates[id].run != run)
  {
    assert RunOf(s.workers[w]) == Some(s.workers[w].run);
    forall v | 0 <= v < |s.workers| && v != w
      ensures RunOf(s.workers[v]) != Some(s.workers[w].run)
    {
      assert v < w || w < v;
    }
  }

  lemma ReplyAnswers(s: System, w: nat)
    requires Answers(s) && Located(s) && Attempts(s) && Enabled(s, Reply(w))
    ensures Answers(Next(s, Reply(w)))
  {
    hide Located, Attempts, Has;
    var t := Next(s, Reply(w));
    var joiners := s.workers[w].joiners;
    assert forall v :: 0 <= v < |s.workers| && v != w ==> t.workers[v] == s.workers[v];
    RunIsOpen(s, w);
    LocatedRequests(s);
    forall a, b | 0 <= a < |t.fates| && 0 <= b < |t.fates| && Has(joiners, a) && Has(joiners, b)
      ensures t.requests[a].key == t.requests[b].key
      ensures s.workers[w].cached ==> s.workers[w].ok && !t.requests[a].forceFetch
    {
      RepliesAgree(s, w, a, b);
    }
  }

  lemma LocatedRequests(s: System)
    requires Located(s)
    ensures |s.fates| == |s.requests|
  {
  }

  // Every run.

  ghost predicate Invariant(s: System) {
    Ownership(s) && Wakeup(s) && Summaries(s) && Attempts(s) && Located(s) && Answers(s)
  }

  lemma InvariantStep(s: System, step: Step)
    requires Invariant(s) && Enabled(s, step)
    ensures Invariant(Next(s, step))
  {
    OwnershipStep(s, step);
    WakeupStep(s, step);
    SummariesStep(s, step);
    AttemptsStep(s, step);
    LocatedStep(s, step);
    AnswersStep(s, step);
  }

  lemma {:induction false} InvariantAlong(s: System, steps: seq<Step>, t: System)
    requires Invariant(s) && Leads(s, steps, t)
    ensures Invariant(t)
    decreases |steps|
  {
    if steps != [] {
      InvariantStep(s, steps[0]);
      InvariantAlong(Next(s, steps[0]), steps[1..], t);
    }
  }

  lemma InvariantHolds(t: System)
    requires Reachable(t)
    ensures Invariant(t)
  {
    var s, steps :| Initial(s) && Leads(s, steps, t);
    InvariantAlong(s, steps, t);
  }

  /** No two workers ever hold one key, a held key is never queued, and its task is never
      missing: the fallbacks for a missing task are unreachable. */
  lemma ExclusiveOwnership(t: System, w: nat, key: TaskKey)
    requires Reachable(t) && w < |t.workers| && t.workers[w].Holds(key)
    ensures key in t.queue.tasks && key !in t.queue.pending && key !in t.startFailed
    ensures forall v :: 0 <= v < |t.workers| && v != w ==> !t.workers[v].Holds(key)
  {
    InvariantHolds(t);
    assert Held(t, key);
  }

  /** A queue with work in it is never left to parked workers alone. */
  lemma NoLostWakeup(t: System)
    requires Reachable(t) && t.queue.pending != []
    requires t.owed == 0 && !t.permit
    ensures exists w :: 0 <= w < |t.workers| && WillPop(t.workers[w])
  {
    InvariantHolds(t);
  }

  /** A request that asked for a real fetch is never answered from the cache. */
  lemma ForcedRequestsAreFetched(t: System, id: nat)
    requires Reachable(t) && id < |t.requests| && t.requests[id].forceFetch
    ensures id < |t.fates|
    ensures t.fates[id].Answered? ==> !t.fates[id].cached
  {
    InvariantHolds(t);
  }

  /** The retry loop makes at most two attempts, and a second one never hits the cache. */
  lemma AtMostTwoAttempts(t: System, w: nat)
    requires Reachable(t) && w < |t.workers|
    ensures t.workers[w].Attempting? || t.workers[w].Fetching? ==> 1 <= t.workers[w].attempt <= 2
    ensures t.workers[w].CacheHit? ==> t.workers[w].attempt == 1
  {
    InvariantHolds(t);
    assert RunsWell(t, w);
  }

  /** Requests are conserved: every accepted request either was deduplicated or created a task,
      and each is in exactly one place. */
  lemma RequestsAreConserved(t: System, id: nat)
    requires Reachable(t)
    ensures |t.requests| == |t.fates| == t.queue.deduped + t.created
    ensures id < |t.requests| ==>
              && (t.fates[id].Waiting? <==> exists key :: key in t.queue.tasks && Has(t.queue.tasks[key].joiners, id))
              && (forall w :: 0 <= w < |t.workers| ==>
                    (t.fates[id] == Taken(w) <==> t.workers[w].Replying? && Has(t.workers[w].joiners, id)))
  {
    InvariantHolds(t);
    if id < |t.requests| {
      assert FateFound(t, id);
      forall key | key in t.queue.tasks && Has(t.queue.tasks[key].joiners, id)
        ensures t.fates[id].Waiting?
      {
        assert Placed(t, t.queue.tasks[key].joiners, Waiting);
      }
      forall w | 0 <= w < |t.workers| && t.workers[w].Replying? && Has(t.workers[w].joiners, id)
        ensures t.fates[id] == Taken(w)
      {
        assert Placed(t, t.workers[w].joiners, Taken(w));
      }
    }
  }

  /** An answer is final, and all requests answered by one run were for one key and got one
      outcome. */
  lemma {:induction false} AnswersAreFinal(s: System, steps: seq<Step>, t: System, id: nat)
    requires Invariant(s) && Leads(s, steps, t)
    requires id < |s.fates| && s.fates[id].Answered?
    ensures id < |t.fates| && t.fates[id] == s.fates[id]
    decreases |steps|
  {
    if steps != [] {
      AnswerKept(s, steps[0], id);
      InvariantStep(s, steps[0]);
      AnswersAreFinal(Next(s, steps[0]), steps[1..], t, id);
    }
  }

  lemma AnswerKept(s: System, step: Step, id: nat)
    requires Invariant(s) && Enabled(s, step)
    requires id < |s.fates| && s.fates[id].Answered?
    ensures id < |Next(s, step).fates| && Next(s, step).fates[id] == s.fates[id]
  {
    if step.CompleteOrRetry? || step.Seal? {
      assert Placed(s, CompletionOf(s.queue, s.workers[step.w].key).joiners, Waiting);
    } else if step.Reply? {
      assert Placed(s, s.workers[step.w].joiners, Taken(step.w));
    }
  }

  lemma OneRunOneOutcome(t: System, a: nat, b: nat)
    requires Reachable(t) && a < |t.fates| && b < |t.fates|
    requires t.fates[a].Answered? && t.fates[b].Answered? && t.fates[a].run == t.fates[b].run
    ensures a < |t.requests| && b < |t.requests|
    ensures t.fates[a] == t.fates[b] && t.requests[a].key == t.requests[b].key
  {
    InvariantHolds(t);
    assert a < b || a == b || b < a;
  }

  // Everything gets answered.

  function Work(worker: Worker): nat {
    match worker
    case Dead => 0
    case Parked => 0
    case Committed => 1
    case Awake => 2
    case Replying(_, _, _, _) => 3
    case Fetching(_, _, _) => 4
    case CacheHit(_, _, _) => 8
    case Attempting(_, _, attempt) => if attempt == 1 then 9 else 6
    case Popped(_) => 10
  }

  function TotalWork(workers: seq<Worker>): nat {
    if workers == [] then 0 else Work(workers[0]) + TotalWork(workers[1..])
  }

  /** A bound on the steps left before the next request. */
  function StepsLeft(s: System): nat {
    TotalWork(s.workers) + 9 * |s.queue.pending| + 3 * s.owed + (if s.permit then 2 else 0)
  }

  lemma {:induction false} TotalWorkUpdate(workers: seq<Worker>, w: nat, worker: Worker)
    requires w < |workers|
    ensures TotalWork(workers[w := worker]) == TotalWork(workers) - Work(workers[w]) + Work(worker)
  {
    if w == 0 {
      assert workers[w := worker][1..] == workers[1..];
    } else {
      TotalWorkUpdate(workers[1..], w - 1, worker);
      assert workers[w := worker][1..] == workers[1..][w - 1 := worker];
    }
  }

  lemma OneWorkerChanges(s: System, step: Step)
    requires Enabled(s, step) && !step.Enqueue? && !step.StorePermit?
    ensures var t := Next(s, step);
            |t.workers| == |s.workers|
            && TotalWork(t.workers) == TotalWork(s.workers) - Work(s.workers[step.w]) + Work(t.workers[step.w])
  {
    var t := Next(s, step);
    TotalWorkUpdate(s.workers, step.w, t.workers[step.w]);
    assert t.workers == s.workers[step.w := t.workers[step.w]];
  }

  lemma EveryStepIsProgress(s: System, step: Step)
    requires Attempts(s) && Enabled(s, step) && !step.Enqueue?
    ensures StepsLeft(Next(s, step)) < StepsLeft(s)
  {
    if !step.StorePermit? {
      assert RunsWell(s, step.w);
      OneWorkerChanges(s, step);
    }
  }

  /** Without new requests the system comes to rest: such a run is no longer than the bound. */
  lemma {:induction false} RunsWithoutRequestsEnd(s: System, steps: seq<Step>, t: System)
    requires Invariant(s) && Leads(s, steps, t)
    requires forall i :: 0 <= i < |steps| ==> !steps[i].Enqueue?
    ensures |steps| <= StepsLeft(s)
    decreases |steps|
  {
    if steps != [] {
      EveryStepIsProgress(s, steps[0]);
      InvariantStep(s, steps[0]);
      RunsWithoutRequestsEnd(Next(s, steps[0]), steps[1..], t);
    }
  }

  ghost predicate AtRest(s: System) {
    forall step :: Enabled(s, step) ==> step.Enqueue?
  }

  lemma AtRestWorkersSleep(t: System)
    requires AtRest(t)
    ensures forall w :: 0 <= w < |t.workers| ==> t.workers[w].Dead? || t.workers[w].Parked?
  {
    forall w | 0 <= w < |t.workers|
      ensures t.workers[w].Dead? || t.workers[w].Parked?
    {
      assert !Enabled(t, Pop(w)) && !Enabled(t, Wait(w)) && !Enabled(t, Start(w, true))
             && !Enabled(t, Attempt(w, None));
      assert !Enabled(t, CompleteOrRetry(w)) && !Enabled(t, Seal(w, true)) && !Enabled(t, Reply(w));
    }
  }

  /** And at rest, with a live worker, the queue is empty and every accepted request has been
      answered, except those for a key whose start failed. */
  lemma AtRestEverythingIsAnswered(t: System, live: nat, id: nat)
    requires Reachable(t) && AtRest(t)
    requires live < |t.workers| && !t.workers[live].Dead?
    ensures t.queue.pending == [] && t.queue.tasks.Keys == t.startFailed
    ensures id < |t.requests| ==>
              id < |t.fates| && (t.fates[id].Answered? || (t.fates[id].Waiting? && t.requests[id].key in t.startFailed))
  {
    InvariantHolds(t);
    AtRestWorkersSleep(t);
    assert !Enabled(t, WakeWaiter(live)) && !Enabled(t, StorePermit);
    assert SomeoneParked(t);
    assert forall key :: !Held(t, key);
    assert t.queue.pending == [];
    assert forall key :: key in t.queue.tasks <==> key in t.startFailed;
    if id < |t.requests| {
      assert FateFound(t, id);
    }
  }

  /** Those exceptions are final: the key of a failed start is never queued again, so whoever
      waits on it, then or later, is never answered. */
  lemma {:induction false} FailedStartsAreNeverAnswered(s: System, steps: seq<Step>, t: System, id: nat)
    requires Invariant(s) && Leads(s, steps, t)
    requires id < |s.requests| && s.requests[id].key in s.startFailed && s.fates[id].Waiting?
    ensures id < |t.fates| && t.fates[id].Waiting?
    decreases |steps|
  {
    if steps != [] {
      FailedStartStays(s, steps[0], id);
      InvariantStep(s, steps[0]);
      FailedStartsAreNeverAnswered(Next(s, steps[0]), steps[1..], t, id);
    }
  }

  /** And there are such requests: one worker, one request, and a run row that cannot be inserted. */
  lemma AFailedStartStrandsItsRequest(request: Request) returns (t: System)
    requires request.key.fid != "" && request.reason != ""
    ensures Reachable(t) && t.requests == [request] && request.key in t.startFailed && t.fates == [Waiting]
  {
    var s := System(QueueState(0, [], map[]), [Awake], false, 0, 0, [], [], 0, {});
    var enqueue, pop, start := Enqueue(request), Pop(0), Start(0, false);
    var a := Next(s, enqueue);
    var b := Next(a, pop);
    t := Next(b, start);
    assert Leads(t, [], t);
    assert [start][1..] == [] && Leads(b, [start], t);
    assert [pop, start][1..] == [start] && Leads(a, [pop, start], t);
    assert [enqueue, pop, start][1..] == [pop, start] && Leads(s, [enqueue, pop, start], t);
    assert Initial(s);
  }

  lemma FailedStartStays(s: System, step: Step, id: nat)
    requires Invariant(s) && Enabled(s, step)
    requires id < |s.requests| && s.requests[id].key in s.startFailed && s.fates[id].Waiting?
    ensures var t := Next(s, step);
            id < |t.requests| && t.requests[id] == s.requests[id] && s.startFailed <= t.startFailed
              && t.fates[id].Waiting?
  {
    hide Invariant;
    RequestsHaveFates(s);
    if step.CompleteOrRetry? || step.Seal? {
      FailedStartIsNotTaken(s, step.w, id);
    } else if step.Reply? {
      WaitingIsNotReplied(s, step.w, id);
    }
  }

  lemma RequestsHaveFates(s: System)
    requires Invariant(s)
    ensures |s.fates| == |s.requests|
  {
  }

  /** A held key is not one whose start failed, so the waiting request is not among its joiners. */
  lemma FailedStartIsNotTaken(s: System, w: nat, id: nat)
    requires Invariant(s) && w < |s.workers| && (s.workers[w].CacheHit? || s.workers[w].Fetching?)
    requires id < |s.requests| && s.requests[id].key in s.startFailed
    ensures !Has(CompletionOf(s.queue, s.workers[w].key).joiners, id)
  {
    assert s.workers[w].Holds(s.workers[w].key) && Held(s, s.workers[w].key);
    assert EntriesPlaced(s);
  }

  lemma WaitingIsNotReplied(s: System, w: nat, id: nat)
    requires Invariant(s) && w < |s.workers| && s.workers[w].Replying?
    requires id < |s.fates| && s.fates[id].Waiting?
    ensures !Has(s.workers[w].joiners, id)
  {
    assert Placed(s, s.workers[w].joiners, Taken(w));
  }

  // Workers that stop.

  /** The worker that a step is a step of. */
  predicate IsStepOf(step: Step, w: nat) {
    match step
    case Enqueue(_) => false
    case StorePermit => false
    case WakeWaiter(v) => v == w
    case Pop(v) => v == w
    case Wait(v) => v == w
    case Start(v, _) => v == w
    case Attempt(v, _) => v == w
    case CompleteOrRetry(v) => v == w
    case Seal(v, _) => v == w
    case Reply(v) => v == w
  }

  /** A request that waits on a key, or that is made later. */
  predicate WaitsOrIsNew(s: System, t: System, id: nat, key: TaskKey) {
    && id < |t.requests| && t.requests[id].key == key
    && (id < |s.requests| ==> id < |s.fates| && s.fates[id].Waiting?)
  }

  /** If a worker stops while it holds a key, as after a panic, whoever waits on the key then or later
      is never answered, whatever the other workers do. */
  lemma {:induction false} StoppedWorkersAnswerNobody(
    s: System, steps: seq<Step>, t: System, w: nat, key: TaskKey, id: nat)
    requires Invariant(s) && Leads(s, steps, t) && w < |s.workers| && s.workers[w].Holds(key)
    requires forall i :: 0 <= i < |steps| ==> !IsStepOf(steps[i], w)
    requires WaitsOrIsNew(s, t, id, key)
    ensures w < |t.workers| && t.workers[w] == s.workers[w] && id < |t.fates| && t.fates[id].Waiting?
    decreases |steps|
  {
    hide Invariant, Next, Enabled;
    RequestsHaveFates(s);
    if steps != [] {
      var next := Next(s, steps[0]);
      InvariantStep(s, steps[0]);
      RequestsHaveFates(next);
      assert forall i :: 0 <= i < |steps[1..]| ==> steps[1..][i] == steps[i + 1];
      RequestsKept(next, steps[1..], t);
      StoppedWorkerStays(s, steps[0], w, key, id);
      StoppedWorkersAnswerNobody(next, steps[1..], t, w, key, id);
    }
  }

  lemma {:induction false} RequestsKept(s: System, steps: seq<Step>, t: System)
    requires Leads(s, steps, t)
    ensures s.requests <= t.requests
    decreases |steps|
  {
    if steps != [] {
      RequestsKept(Next(s, steps[0]), steps[1..], t);
    }
  }

  lemma StoppedWorkerStays(s: System, step: Step, w: nat, key: TaskKey, id: nat)
    requires Invariant(s) && Enabled(s, step) && !IsStepOf(step, w)
    requires w < |s.workers| && s.workers[w].Holds(key)
    ensures var t := Next(s, step);
            && w < |t.workers| && t.workers[w] == s.workers[w] && s.requests <= t.requests
            && (WaitsOrIsNew(s, t, id, key) ==> id < |t.fates| && t.fates[id].Waiting?)
  {
    hide Invariant;
    RequestsHaveFates(s);
    if id < |s.requests| && s.requests[id].key == key && s.fates[id].Waiting? {
      if step.CompleteOrRetry? || step.Seal? {
        OtherEntriesAreTaken(s, step.w, w, key, id);
      } else if step.Reply? {
        WaitingIsNotReplied(s, step.w, id);
      }
    }
  }

  lemma OtherEntriesAreTaken(s: System, v: nat, w: nat, key: TaskKey, id: nat)
    requires Invariant(s) && v < |s.workers| && (s.workers[v].CacheHit? || s.workers[v].Fetching?)
    requires w < |s.workers| && w != v && s.workers[w].Holds(key)
    requires id < |s.requests| && s.requests[id].key == key
    ensures !Has(CompletionOf(s.queue, s.workers[v].key).joiners, id)
  {
    assert s.workers[v].Holds(s.workers[v].key);
    assert EntriesPlaced(s);
  }

  // Requests and notifications.

  /** No request without a page or a reason is accepted. */
  lemma {:induction false} RequestsAreComplete(s: System, steps: seq<Step>, t: System, id: nat)
    requires Leads(s, steps, t) && |s.requests| <= id < |t.requests|
    ensures t.requests[id].key.fid != "" && t.requests[id].reason != ""
    decreases |steps|
  {
    if steps != [] {
      var next := Next(s, steps[0]);
      RequestsKept(next, steps[1..], t);
      if id >= |next.requests| {
        RequestsAreComplete(next, steps[1..], t, id);
      }
    }
  }

  function Notifications(steps: seq<Step>): nat {
    if steps == [] then 0
    else (if steps[0].WakeWaiter? || steps[0].StorePermit? then 1 else 0) + Notifications(steps[1..])
  }

  /** Every new task is notified of once: the tasks that a run creates are its notifications and those
      still owed. */
  lemma {:induction false} TasksAreNotifiedOnce(s: System, steps: seq<Step>, t: System)
    requires Leads(s, steps, t)
    ensures s.owed + t.created - s.created == Notifications(steps) + t.owed
    decreases |steps|
  {
    if steps != [] {
      TasksAreNotifiedOnce(Next(s, steps[0]), steps[1..], t);
    }
  }

  /** An owed notification can always be given, to a parked worker if there is one. */
  lemma OwedNotificationsCanBeGiven(s: System)
    requires s.owed > 0
    ensures Enabled(s, StorePermit) || exists w :: 0 <= w < |s.workers| && Enabled(s, WakeWaiter(w))
    ensures Enabled(s, StorePermit) <==> !SomeoneParked(s)
  {
    if SomeoneParked(s) {
      var w :| 0 <= w < |s.workers| && s.workers[w].Parked?;
      assert Enabled(s, WakeWaiter(w));
    }
  }

  // The cache decision in a run.

  /** An attempt takes the cached result exactly if nobody forced a fetch by then and the result is
      fresh enough for some reason of the task; otherwise it fetches. */
  lemma CacheHitsAreFresh(s: System, w: nat, cacheAge: Option<int>)
    requires Enabled(s, Attempt(w, cacheAge))
    ensures var worker, key := Next(s, Attempt(w, cacheAge)).workers[w], s.workers[w].key;
            && (worker.CacheHit? || worker.Fetching?) && worker.key == key
            && (worker.CacheHit?
                <==> && key in s.queue.tasks && !s.queue.tasks[key].forceFetch && cacheAge.Some?
                     && SomeReasonAccepts(s.queue.tasks[key].reasonCounts, cacheAge.value))
  {
    var key := s.workers[w].key;
    if key in s.queue.tasks {
      AnswersFromCacheExactly(s.queue.tasks[key].reasonCounts, s.queue.tasks[key].forceFetch, cacheAge);
    }
  }

  // Order.

  /** The key that a step queues. */
  function QueuedBy(s: System, step: Step): seq<TaskKey> {
    if step.Enqueue? && step.request.key !in s.queue.tasks then [step.request.key] else []
  }

  /** The key that a worker takes with a step. */
  function TakenBy(s: System, step: Step): seq<TaskKey>
    requires Enabled(s, step)
  {
    var next := Next(s, step);
    if step.Pop? && next.workers[step.w].Popped? then [next.workers[step.w].key] else []
  }

  /** All keys that a run of steps queues, in order. */
  function Queued(s: System, steps: seq<Step>): seq<TaskKey>
    requires Along(s, steps)
    decreases |steps|
  {
    if steps == [] then [] else QueuedBy(s, steps[0]) + Queued(Next(s, steps[0]), steps[1..])
  }

  function TakenKeys(s: System, steps: seq<Step>): seq<TaskKey>
    requires Along(s, steps)
    decreases |steps|
  {
    if steps == [] then [] else TakenBy(s, steps[0]) + TakenKeys(Next(s, steps[0]), steps[1..])
  }

  predicate Along(s: System, steps: seq<Step>)
    decreases |steps|
  {
    steps == [] || (Enabled(s, steps[0]) && Along(Next(s, steps[0]), steps[1..]))
  }

  lemma {:induction false} LeadsAlong(s: System, steps: seq<Step>, t: System)
    requires Leads(s, steps, t)
    ensures Along(s, steps)
    decreases |steps|
  {
    hide Next, Enabled;
    if steps != [] {
      LeadsAlong(Next(s, steps[0]), steps[1..], t);
    }
  }

  lemma OneStepInOrder(s: System, step: Step)
    requires Enabled(s, step)
    ensures s.queue.pending + QueuedBy(s, step) == TakenBy(s, step) + Next(s, step).queue.pending
  {
    assert s.queue.pending + [] == s.queue.pending;
  }

  /** First come, first served: the keys that were pending and those queued later are taken in this
      order, and what is not taken yet is pending. */
  lemma {:induction false} FirstComeFirstServed(s: System, steps: seq<Step>, t: System)
    requires Leads(s, steps, t)
    ensures Along(s, steps) && s.queue.pending + Queued(s, steps) == TakenKeys(s, steps) + t.queue.pending
    decreases |steps|
  {
    hide Next, Enabled, QueuedBy, TakenBy;
    LeadsAlong(s, steps, t);
    if steps != [] {
      var next := Next(s, steps[0]);
      var first, queued := QueuedBy(s, steps[0]), Queued(next, steps[1..]);
      var gone, taken := TakenBy(s, steps[0]), TakenKeys(next, steps[1..]);
      FirstComeFirstServed(next, steps[1..], t);
      OneStepInOrder(s, steps[0]);
      calc {
        s.queue.pending + (first + queued);
        (s.queue.pending + first) + queued;
        gone + (next.queue.pending + queued);
        gone + (taken + t.queue.pending);
        (gone + taken) + t.queue.pending;
      }
    }
  }
}
