/** Whole runs of the refresh manager: triggers of any users and the steps of any jobs interleave,
    one region that holds a lock at a time. */
module RefreshRuns {
  import opened Wrappers
  import opened Calendar
  import opened RefreshManager

  datatype Phase =
    | Loading
    | Visiting(targets: nat, done: nat, announced: bool)
    | Failing(error: string, loaded: Option<nat>)
    | Ended

  /** Job ids are indices into `phases`; index 0 is the id the manager is created with. `waiting`
      counts the triggers that passed the gate and did not reach the status yet. The last four
      components record history: all updates, the job that made each, the number of targets that
      job had loaded by then, and the passes of the gate with their clock readings. */
  datatype System = System(
    status: Status,
    gate: map<string, int>,
    waiting: nat,
    phases: seq<Phase>,
    sent: seq<Status>,
    makers: seq<nat>,
    loads: seq<Option<nat>>,
    passes: seq<(string, int)>)

  datatype Step =
    | PassGate(user: string, now: int)
    | Begin(trigger: RefreshTrigger, limited: bool)
    | Load(job: nat, targets: Result<nat, string>)
    | Announce(job: nat, current: Current)
    | FailVisit(job: nat, error: string)
    | Answer(job: nat)
    | Finish(job: nat)
    | Fail(job: nat)

  predicate Initial(s: System) {
    s == System(Status(0, Idle, Manual, 0, 0, None, None), map[], 0, [Ended], [], [], [], [])
  }

  predicate Enabled(s: System, step: Step) {
    match step
    case PassGate(user, now) => PassesGate(s.gate, user, now)
    case Begin(trigger, limited) => limited ==> trigger.Manual? && s.waiting > 0
    case Load(job, _) => job < |s.phases| && s.phases[job].Loading?
    case Announce(job, _) =>
      job < |s.phases| && s.phases[job].Visiting? && !s.phases[job].announced
        && s.phases[job].done < s.phases[job].targets
    case FailVisit(job, _) =>
      job < |s.phases| && s.phases[job].Visiting? && s.phases[job].done < s.phases[job].targets
    case Answer(job) => job < |s.phases| && s.phases[job].Visiting? && s.phases[job].announced
    case Finish(job) =>
      job < |s.phases| && s.phases[job].Visiting? && !s.phases[job].announced
        && s.phases[job].done >= s.phases[job].targets
    case Fail(job) => job < |s.phases| && s.phases[job].Failing?
  }

  /** The number of targets that a job has loaded. */
  function LoadedBy(phase: Phase): Option<nat> {
    match phase
    case Visiting(targets, _, _) => Some(targets)
    case Failing(_, loaded) => loaded
    case _ => None
  }

  function Published(s: System, job: nat, st: Status, phase: Phase, targets: Option<nat>): System
    requires job < |s.phases|
  {
    s.(status := st, sent := s.sent + [st], makers := s.makers + [job], loads := s.loads + [targets],
       phases := s.phases[job := phase])
  }

  function Next(s: System, step: Step): System
    requires Enabled(s, step)
  {
    match step
    case PassGate(user, now) =>
      s.(gate := s.gate[user := now], waiting := s.waiting + 1, passes := s.passes + [(user, now)])
    case Begin(trigger, limited) =>
      var t := s.(waiting := if limited then s.waiting - 1 else s.waiting);
      if s.status.state.Running? then t
      else Published(t.(phases := t.phases + [Loading]), |s.phases|, Begun(|s.phases|, trigger), Loading, None)
    case Load(job, targets) =>
      if targets.Failure? then s.(phases := s.phases[job := Failing(targets.error, None)])
      else
        Published(s, job, AfterProgress(s.status, 0, TotalOf(targets.value), None), Visiting(targets.value, 0, false),
                  Some(targets.value))
    case Announce(job, current) =>
      var Visiting(targets, done, _) := s.phases[job];
      Published(s, job, AfterProgress(s.status, done, TotalOf(targets), Some(current)), Visiting(targets, done, true),
                Some(targets))
    case FailVisit(job, error) => s.(phases := s.phases[job := Failing(error, LoadedBy(s.phases[job]))])
    case Answer(job) =>
      var Visiting(targets, done, _) := s.phases[job];
      Published(s, job, AfterProgress(s.status, done + 1, TotalOf(targets), None), Visiting(targets, done + 1, false),
                Some(targets))
    case Finish(job) => Published(s, job, AfterSuccess(s.status), Ended, LoadedBy(s.phases[job]))
    case Fail(job) => Published(s, job, AfterError(s.status, s.phases[job].error), Ended, LoadedBy(s.phases[job]))
  }

  predicate Leads(s: System, steps: seq<Step>, t: System)
    decreases |steps|
  {
    if steps == [] then s == t else Enabled(s, steps[0]) && Leads(Next(s, steps[0]), steps[1..], t)
  }

  ghost predicate Reachable(t: System) {
    exists s, steps :: Initial(s) && Leads(s, steps, t)
  }

  // One job at a time.

  /** Only the newest job can be alive; the status carries its id and is running exactly while it
      is alive. */
  ghost predicate SingleFlight(s: System) {
    && |s.phases| > 0
    && s.status.jobId == |s.phases| - 1
    && (forall job :: 0 <= job < |s.phases| - 1 ==> s.phases[job].Ended?)
    && (s.status.state.Running? <==> !s.phases[s.status.jobId].Ended?)
  }

  /** The status shows a message exactly after an error, and a target only while a job runs. */
  predicate Displays(st: Status) {
    (st.message.Some? <==> st.state.Errored?) && (st.current.Some? ==> st.state.Running?)
  }

  /** The counters and the target of the status are those of the job it shows. */
  ghost predicate CountersFit(s: System)
    requires SingleFlight(s)
  {
    && 0 <= s.status.done <= s.status.total && Displays(s.status)
    && match s.phases[s.status.jobId]
       case Loading => s.status.done == s.status.total == 0 && s.status.current.None?
       case Visiting(targets, done, announced) =>
         done <= targets && s.status.done == done && s.status.total == TotalOf(targets)
           && (announced ==> done < targets) && (announced <==> s.status.current.Some?)
       case Failing(_, loaded) =>
         loaded.Some? ==> s.status.done < loaded.value && s.status.total == TotalOf(loaded.value)
       case _ => true
  }

  lemma SingleFlightStep(s: System, step: Step)
    requires SingleFlight(s) && CountersFit(s) && Enabled(s, step)
    ensures SingleFlight(Next(s, step)) && CountersFit(Next(s, step))
  {
  }

  // The history of updates.

  ghost predicate Fits(st: Status, last: Status) {
    st.jobId < last.jobId || (st.jobId == last.jobId && st.done <= last.done)
  }

  /** An update counts within its total, which is that of the targets once they are loaded, and
      shows success only when all of them are done. */
  predicate Sensible(st: Status, targets: Option<nat>) {
    && 0 <= st.done <= st.total && Displays(st)
    && (targets.Some? ==> st.done <= targets.value && st.total == TotalOf(targets.value))
    && (st.state.Succeeded? ==> targets.Some? && st.done == targets.value)
    && (st.state.Errored? && targets.Some? ==> st.done < targets.value)
  }

  /** The updates so far, the jobs that made them with their loads, and the status now. */
  ghost predicate History(sent: seq<Status>, makers: seq<nat>, loads: seq<Option<nat>>, status: Status) {
    && |sent| == |makers| == |loads|
    && (sent != [] ==> sent[|sent| - 1] == status)
    && (forall i :: 0 <= i < |sent| ==> sent[i].jobId == makers[i] && Fits(sent[i], status))
    && (forall i :: 0 <= i < |sent| ==> Sensible(sent[i], loads[i]))
    && (forall i, j :: 0 <= i < j < |sent| ==> Fits(sent[i], sent[j]))
  }

  lemma PublishKeepsHistory(
    sent: seq<Status>, makers: seq<nat>, loads: seq<Option<nat>>, last: Status, st: Status, targets: Option<nat>)
    requires History(sent, makers, loads, last) && Fits(last, st) && Sensible(st, targets)
    ensures History(sent + [st], makers + [st.jobId], loads + [targets], st)
  {
  }

  /** What the acting job of a step has loaded after it. */
  function LoadsOf(s: System, step: Step): Option<nat>
    requires Enabled(s, step)
  {
    match step
    case PassGate(_, _) => None
    case Begin(_, _) => None
    case Load(_, targets) => if targets.Success? then Some(targets.value) else None
    case Announce(job, _) => LoadedBy(s.phases[job])
    case FailVisit(job, _) => LoadedBy(s.phases[job])
    case Answer(job) => LoadedBy(s.phases[job])
    case Finish(job) => LoadedBy(s.phases[job])
    case Fail(job) => LoadedBy(s.phases[job])
  }

  lemma UpdatesFit(s: System, step: Step)
    requires SingleFlight(s) && CountersFit(s) && Enabled(s, step)
    ensures var t := Next(s, step);
            || (t.sent == s.sent && t.makers == s.makers && t.loads == s.loads && t.status == s.status)
            || (t.sent == s.sent + [t.status] && t.makers == s.makers + [t.status.jobId]
                && t.loads == s.loads + [LoadsOf(s, step)]
                && Fits(s.status, t.status) && Sensible(t.status, LoadsOf(s, step)))
  {
    SingleFlightStep(s, step);
  }

  lemma HistoryStep(s: System, step: Step)
    requires SingleFlight(s) && CountersFit(s) && History(s.sent, s.makers, s.loads, s.status) && Enabled(s, step)
    ensures var t := Next(s, step); History(t.sent, t.makers, t.loads, t.status)
  {
    var t := Next(s, step);
    UpdatesFit(s, step);
    if t.sent != s.sent {
      PublishKeepsHistory(s.sent, s.makers, s.loads, s.status, t.status, LoadsOf(s, step));
    }
  }

  // The gate.

  ghost predicate Apart(passes: seq<(string, int)>) {
    forall i, j :: 0 <= i < j < |passes| && passes[i].0 == passes[j].0 ==>
      passes[j].1 - passes[i].1 >= MANUAL_MIN_INTERVAL_SECONDS * NANOS_PER_SECOND
  }

  /** The gate holds a reading of every user who passed, and no earlier pass had a later one. */
  ghost predicate Gated(gate: map<string, int>, passes: seq<(string, int)>) {
    && (forall i :: 0 <= i < |passes| ==> passes[i].0 in gate && passes[i].1 <= gate[passes[i].0])
    && (forall user :: user in gate ==> (user, gate[user]) in passes)
  }

  ghost predicate GateFits(s: System) {
    Gated(s.gate, s.passes) && Apart(s.passes)
  }

  lemma PassStep(gate: map<string, int>, passes: seq<(string, int)>, user: string, now: int)
    requires Gated(gate, passes) && Apart(passes) && PassesGate(gate, user, now)
    ensures Gated(gate[user := now], passes + [(user, now)]) && Apart(passes + [(user, now)])
  {
  }

  lemma GateStep(s: System, step: Step)
    requires GateFits(s) && Enabled(s, step)
    ensures GateFits(Next(s, step))
  {
    var t := Next(s, step);
    if step.PassGate? {
      PassStep(s.gate, s.passes, step.user, step.now);
      assert t.gate == s.gate[step.user := step.now] && t.passes == s.passes + [(step.user, step.now)];
    } else {
      assert t.gate == s.gate && t.passes == s.passes;
    }
  }

  // Every run.

  ghost predicate Invariant(s: System) {
    SingleFlight(s) && CountersFit(s) && History(s.sent, s.makers, s.loads, s.status) && GateFits(s)
  }

  lemma {:induction false} InvariantAlong(s: System, steps: seq<Step>, t: System)
    requires Invariant(s) && Leads(s, steps, t)
    ensures Invariant(t)
    decreases |steps|
  {
    if steps != [] {
      SingleFlightStep(s, steps[0]);
      HistoryStep(s, steps[0]);
      GateStep(s, steps[0]);
      InvariantAlong(Next(s, steps[0]), steps[1..], t);
    }
  }

  lemma InvariantHolds(t: System)
    requires Reachable(t)
    ensures Invariant(t)
  {
    var s, steps :| Initial(s) && Leads(s, steps, t);
    InvariantAlong(s, steps, t);
  }

  /** At most one job is alive, and the status is running exactly while its job is. */
  lemma OneJobAtATime(t: System, a: nat, b: nat)
    requires Reachable(t) && a < |t.phases| && b < |t.phases|
    ensures !t.phases[a].Ended? && !t.phases[b].Ended? ==> a == b
    ensures !t.phases[a].Ended? <==> t.status.state.Running? && t.status.jobId == a
  {
    InvariantHolds(t);
  }

  /** Every update is made by the job it shows; later updates show the same job or a newer one,
      and within a job the count never falls and never exceeds the total. */
  lemma UpdatesAreInOrder(t: System, i: nat, j: nat)
    requires Reachable(t) && i < j < |t.sent|
    ensures |t.makers| == |t.sent| && t.sent[i].jobId == t.makers[i]
    ensures t.sent[i].jobId <= t.sent[j].jobId
    ensures t.sent[i].jobId == t.sent[j].jobId ==> 0 <= t.sent[i].done <= t.sent[j].done <= t.sent[j].total
  {
    InvariantHolds(t);
    assert Fits(t.sent[i], t.sent[j]);
  }

  /** Success is shown only by a job that has loaded its targets and finished all of them. So it
      shows 0 of 1 exactly when there were none, and otherwise n of n. */
  lemma SuccessMeansAllDone(t: System, i: nat)
    requires Reachable(t) && i < |t.sent| && t.sent[i].state.Succeeded?
    ensures |t.loads| == |t.sent| && t.loads[i].Some?
    ensures t.sent[i].done == t.loads[i].value && t.sent[i].total == TotalOf(t.loads[i].value)
    ensures t.sent[i].done == 0 && t.sent[i].total == 1 <==> t.loads[i] == Some(0)
    ensures t.loads[i] != Some(0) <==> t.sent[i].done == t.sent[i].total
  {
    InvariantHolds(t);
    assert Sensible(t.sent[i], t.loads[i]);
  }

  /** A run without targets does end at 0 of 1. */
  lemma EmptyRefreshSucceeds() returns (t: System)
    ensures Reachable(t) && t.sent != []
    ensures var last := t.sent[|t.sent| - 1]; last.state.Succeeded? && last.done == 0 && last.total == 1
  {
    var s := System(Status(0, Idle, Manual, 0, 0, None, None), map[], 0, [Ended], [], [], [], []);
    var begin, load, finish := Begin(Auto, false), Load(1, Result.Success(0)), Finish(1);
    var a := Next(s, begin);
    var b := Next(a, load);
    t := Next(b, finish);
    assert Leads(t, [], t);
    assert [finish][1..] == [] && Leads(b, [finish], t);
    assert [load, finish][1..] == [finish] && Leads(a, [load, finish], t);
    assert [begin, load, finish][1..] == [load, finish] && Leads(s, [begin, load, finish], t);
    assert Initial(s);
  }

  /** In every run an update shows a message exactly if it shows an error, and a current target only
      while its job runs; an error of a job with targets leaves some of them undone; and while a job runs,
      the status shows a target exactly if it is visiting one. */
  lemma UpdatesDisplay(t: System, i: nat)
    requires Reachable(t)
    ensures i < |t.sent| ==>
              && (t.sent[i].message.Some? <==> t.sent[i].state.Errored?)
              && (t.sent[i].current.Some? ==> t.sent[i].state.Running?)
    ensures i < |t.sent| && t.sent[i].state.Errored? ==>
              |t.loads| == |t.sent| && (t.loads[i].Some? ==> t.sent[i].done < t.loads[i].value)
    ensures forall job :: 0 <= job < |t.phases| && t.phases[job].Visiting? ==>
              (t.status.current.Some? <==> t.phases[job].announced)
  {
    InvariantHolds(t);
    if i < |t.sent| {
      assert Sensible(t.sent[i], t.loads[i]);
    }
  }

  /** What a step of a job puts on display: the announced target, one more target done, the error, or
      the job that begins. */
  lemma StepsDisplay(s: System, step: Step)
    requires Enabled(s, step)
    ensures var t := Next(s, step);
            match step
            case Begin(trigger, _) =>
              !s.status.state.Running? ==>
                t.status.jobId == |s.phases| && t.status.trigger == trigger && t.status.state.Running?
            case Load(_, targets) =>
              targets.Success? ==> t.status.done == 0 && t.status.current.None?
            case Announce(job, current) =>
              t.status.current == Some(current) && t.status.done == s.phases[job].done
            case Answer(job) => t.status.current == None && t.status.done == s.phases[job].done + 1
            case Finish(_) => t.status.state.Succeeded?
            case Fail(job) => t.status.state.Errored? && t.status.message == Some(s.phases[job].error)
            case _ => t.status == s.status
  {
  }

  /** Any two manual triggers of one user that pass the gate are at least 30 seconds of clock
      readings apart, in the order in which they pass, even if the clock is set back between. */
  lemma PassesAreApart(t: System, i: nat, j: nat)
    requires Reachable(t) && i < j < |t.passes| && t.passes[i].0 == t.passes[j].0
    ensures t.passes[j].1 - t.passes[i].1 >= 30 * NANOS_PER_SECOND
  {
    InvariantHolds(t);
  }

  /** And a user is refused only within 30 seconds of readings after some pass of the same user. */
  lemma RefusedOnlyAfterAPass(t: System, user: string, now: int)
    requires Reachable(t)
    ensures Enabled(t, PassGate(user, now))
            <==> forall i :: 0 <= i < |t.passes| && t.passes[i].0 == user ==>
                   now - t.passes[i].1 >= 30 * NANOS_PER_SECOND
  {
    InvariantHolds(t);
    if user in t.gate {
      var i :| 0 <= i < |t.passes| && t.passes[i] == (user, t.gate[user]);
      assert t.passes[i].0 == user && t.passes[i].1 == t.gate[user];
    }
  }

  function LimitedBegins(steps: seq<Step>): nat {
    if steps == [] then 0
    else (if steps[0].Begin? && steps[0].limited then 1 else 0) + LimitedBegins(steps[1..])
  }

  /** Every pass of the gate is worth one begin: the passes of a run are the begins of limited triggers
      and the triggers still on their way. */
  lemma {:induction false} PassesAreSpentOnce(s: System, steps: seq<Step>, t: System)
    requires Leads(s, steps, t)
    ensures s.waiting + |t.passes| - |s.passes| == LimitedBegins(steps) + t.waiting
    decreases |steps|
  {
    if steps != [] {
      PassesAreSpentOnce(Next(s, steps[0]), steps[1..], t);
    }
  }

  /** And a trigger that passed can begin at once. */
  lemma PassedTriggersBegin(s: System, user: string, now: int)
    requires Enabled(s, PassGate(user, now))
    ensures Enabled(Next(s, PassGate(user, now)), Begin(Manual, true))
  {
  }

  // The job loop is a run of these steps.

  function VisitSteps(job: nat, visits: seq<Visit>): seq<Step> {
    if visits == [] then [Finish(job)]
    else match visits[0].outcome
      case LookupFailed(error) => [FailVisit(job, error), Fail(job)]
      case FetchFailed(error) => [Announce(job, ShownOf(visits[0])), FailVisit(job, error), Fail(job)]
      case Answered => [Announce(job, ShownOf(visits[0])), Answer(job)] + VisitSteps(job, visits[1..])
  }

  function JobSteps(job: nat, loaded: Result<seq<Visit>, string>): seq<Step> {
    if loaded.Failure? then [Load(job, Failure(loaded.error)), Fail(job)]
    else [Load(job, Result.Success(|loaded.value|))] + VisitSteps(job, loaded.value)
  }

  /** A fully enabled run of steps and where it leads. */
  ghost predicate Runs(s: System, steps: seq<Step>, sent: seq<Status>) {
    exists t :: Leads(s, steps, t) && t.sent == sent
  }

  lemma RunsOn(s: System, step: Step, steps: seq<Step>, sent: seq<Status>)
    requires Enabled(s, step) && Runs(Next(s, step), steps, sent)
    ensures Runs(s, [step] + steps, sent)
  {
    var t :| Leads(Next(s, step), steps, t) && t.sent == sent;
    assert ([step] + steps)[1..] == steps;
    assert Leads(s, [step] + steps, t);
  }

  lemma RunsNowhere(s: System)
    ensures Runs(s, [], s.sent)
  {
    assert Leads(s, [], s);
  }

  lemma FailRuns(s: System, job: nat, error: string)
    requires job < |s.phases| && s.phases[job].Failing? && s.phases[job].error == error
    ensures Runs(s, [Fail(job)], s.sent + [AfterError(s.status, error)])
  {
    RunsNowhere(Next(s, Fail(job)));
    assert [Fail(job)] + [] == [Fail(job)];
    RunsOn(s, Fail(job), [], s.sent + [AfterError(s.status, error)]);
  }

  lemma FailVisitRuns(s: System, job: nat, error: string)
    requires Enabled(s, FailVisit(job, error))
    ensures Runs(s, [FailVisit(job, error), Fail(job)], s.sent + [AfterError(s.status, error)])
  {
    FailRuns(Next(s, FailVisit(job, error)), job, error);
    RunsOn(s, FailVisit(job, error), [Fail(job)], s.sent + [AfterError(s.status, error)]);
    assert [FailVisit(job, error)] + [Fail(job)] == [FailVisit(job, error), Fail(job)];
  }

  /** What the loop of a running job broadcasts from its visits on is what the steps broadcast. */
  lemma {:induction false} VisitsAreARun(s: System, job: nat, targets: nat, done: nat, visits: seq<Visit>)
    requires job < |s.phases| && s.phases[job] == Visiting(targets, done, false) && done + |visits| == targets
    ensures Runs(s, VisitSteps(job, visits), s.sent + VisitUpdates(s.status, done, TotalOf(targets), visits))
    decreases |visits|
  {
    if visits == [] {
      var t := Next(s, Finish(job));
      RunsNowhere(t);
      RunsOn(s, Finish(job), [], t.sent);
      assert [Finish(job)] + [] == [Finish(job)];
    } else if visits[0].outcome.LookupFailed? {
      FailVisitRuns(s, job, visits[0].outcome.error);
    } else if visits[0].outcome.FetchFailed? {
      FetchFailureRuns(s, job, targets, done, visits);
    } else {
      var u := AnsweredSteps(s, job, targets, done, ShownOf(visits[0]));
      VisitsAreARun(u, job, targets, done + 1, visits[1..]);
      StepsOfAnswered(job, visits);
      VisitSent(s.sent, s.status, done, TotalOf(targets), visits);
    }
  }

  lemma FetchFailureRuns(s: System, job: nat, targets: nat, done: nat, visits: seq<Visit>)
    requires job < |s.phases| && s.phases[job] == Visiting(targets, done, false) && done < targets
    requires visits != [] && visits[0].outcome.FetchFailed?
    ensures Runs(s, VisitSteps(job, visits), s.sent + VisitUpdates(s.status, done, TotalOf(targets), visits))
  {
    var announce, error := Announce(job, ShownOf(visits[0])), visits[0].outcome.error;
    var t := Next(s, announce);
    FailVisitRuns(t, job, error);
    RunsOn(s, announce, [FailVisit(job, error), Fail(job)], t.sent + [AfterError(t.status, error)]);
    assert [announce] + [FailVisit(job, error), Fail(job)] == VisitSteps(job, visits);
    assert t.sent + [AfterError(t.status, error)] == s.sent + [t.status, AfterError(t.status, error)];
  }

  /** An answered visit is an announcement and an answer. */
  lemma AnsweredSteps(s: System, job: nat, targets: nat, done: nat, shown: Current) returns (u: System)
    requires job < |s.phases| && s.phases[job] == Visiting(targets, done, false) && done < targets
    ensures var first := AfterProgress(s.status, done, TotalOf(targets), Some(shown));
            && u.status == AfterProgress(first, done + 1, TotalOf(targets), None)
            && u.sent == s.sent + [first, u.status]
            && job < |u.phases| && u.phases[job] == Visiting(targets, done + 1, false)
    ensures forall steps, sent :: Runs(u, steps, sent) ==>
              Runs(s, [Announce(job, shown)] + ([Answer(job)] + steps), sent)
  {
    var t := Next(s, Announce(job, shown));
    u := Next(t, Answer(job));
    assert s.sent + [t.status] + [u.status] == s.sent + [t.status, u.status];
    forall steps, sent | Runs(u, steps, sent)
      ensures Runs(s, [Announce(job, shown)] + ([Answer(job)] + steps), sent)
    {
      RunsOn(t, Answer(job), steps, sent);
      RunsOn(s, Announce(job, shown), [Answer(job)] + steps, sent);
    }
  }

  lemma StepsOfAnswered(job: nat, visits: seq<Visit>)
    requires visits != [] && visits[0].outcome.Answered?
    ensures VisitSteps(job, visits)
            == [Announce(job, ShownOf(visits[0]))] + ([Answer(job)] + VisitSteps(job, visits[1..]))
  {
  }

  /** Everything the job loop broadcasts, undisturbed, is a run of the machine's steps. */
  lemma JobsAreRuns(s: System, job: nat, loaded: Result<seq<Visit>, string>)
    requires job < |s.phases| && s.phases[job].Loading?
    ensures Runs(s, JobSteps(job, loaded), s.sent + JobUpdates(s.status, loaded))
  {
    if loaded.Failure? {
      var load := Load(job, Failure(loaded.error));
      FailRuns(Next(s, load), job, loaded.error);
      RunsOn(s, load, [Fail(job)], s.sent + [AfterError(s.status, loaded.error)]);
      assert [load] + [Fail(job)] == JobSteps(job, loaded);
    } else {
      var n := |loaded.value|;
      var load := Load(job, Result.Success(n));
      var t := Next(s, load);
      var updates := VisitUpdates(t.status, 0, TotalOf(n), loaded.value);
      VisitsAreARun(t, job, n, 0, loaded.value);
      RunsOn(s, load, VisitSteps(job, loaded.value), t.sent + updates);
      assert t.sent + updates == s.sent + ([t.status] + updates);
    }
  }
}
