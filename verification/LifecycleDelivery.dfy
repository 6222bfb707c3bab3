/** Notifying users of the listed and delisted configs of one run. */
module LifecycleDelivery {
  import opened Wrappers
  import opened Sources
  import opened CatalogStore

  datatype Kind = Added | Restock | Removed

  datatype Notice = Notice(user: string, id: string, kind: Kind)

  /** What the delivery loops read. `scope` are the users subscribed to the partition, `monitored`
      the users who monitor one of the told configs; both queries give each user once. */
  datatype Context = Context(
    scope: seq<string>,
    monitored: seq<string>,
    monitors: set<(string, string)>,
    waiters: set<string>,
    rows: Configs,
    listed: set<string>,
    listedEvents: seq<string>,
    delisted: seq<string>)

  predicate NoRepeats<T(==)>(items: seq<T>) {
    forall i, j :: 0 <= i < j < |items| ==> items[i] != items[j]
  }

  predicate Monitors(ctx: Context, user: string, id: string) {
    id in ctx.listedEvents && (user, id) in ctx.monitors
  }

  /** A user whose poller waits on this run is told here only of configs that the run listed. */
  predicate FallbackAllowed(ctx: Context, user: string, id: string) {
    user in ctx.waiters ==> id in ctx.listed
  }

  function RestockOf(ctx: Context, user: string, id: string): seq<Notice> {
    if id in ctx.rows && Monitors(ctx, user, id) && FallbackAllowed(ctx, user, id)
    then [Notice(user, id, Restock)] else []
  }

  function Restocks(ctx: Context, user: string, ids: seq<string>): seq<Notice> {
    if ids == [] then []
    else
      var n := |ids| - 1;
      Restocks(ctx, user, ids[..n]) + RestockOf(ctx, user, ids[n])
  }

  function Additions(ctx: Context, user: string, ids: seq<string>): seq<Notice> {
    if ids == [] then []
    else
      var n := |ids| - 1;
      Additions(ctx, user, ids[..n])
      + (if ids[n] in ctx.rows && !Monitors(ctx, user, ids[n]) then [Notice(user, ids[n], Added)] else [])
  }

  function Removals(ctx: Context, user: string, ids: seq<string>): seq<Notice> {
    if ids == [] then []
    else
      var n := |ids| - 1;
      Removals(ctx, user, ids[..n]) + (if ids[n] in ctx.rows then [Notice(user, ids[n], Removed)] else [])
  }

  function ScopeNotices(ctx: Context, user: string): seq<Notice> {
    Restocks(ctx, user, ctx.listedEvents) + Additions(ctx, user, ctx.listedEvents) + Removals(ctx, user, ctx.delisted)
  }

  function ScopePlan(ctx: Context, users: seq<string>): seq<Notice> {
    if users == [] then []
    else ScopePlan(ctx, users[..|users| - 1]) + ScopeNotices(ctx, users[|users| - 1])
  }

  /** Users served as subscribers are not served again. */
  function MonitoringNotices(ctx: Context, user: string): seq<Notice> {
    if user in ctx.scope then [] else Restocks(ctx, user, ctx.listedEvents)
  }

  function MonitoredPlan(ctx: Context, users: seq<string>): seq<Notice> {
    if users == [] then []
    else
      var n := |users| - 1;
      MonitoredPlan(ctx, users[..n]) + MonitoringNotices(ctx, users[n])
  }

  /** All notices of the run, in delivery order. */
  function Plan(ctx: Context): seq<Notice> {
    ScopePlan(ctx, ctx.scope) + MonitoredPlan(ctx, ctx.monitored)
  }

  lemma Split<T>(items: seq<T>)
    requires items != []
    ensures multiset(items) == multiset(items[..|items| - 1]) + multiset{items[|items| - 1]}
  {
    assert items == items[..|items| - 1] + [items[|items| - 1]];
  }

  lemma {:induction false} RestockCount(ctx: Context, user: string, ids: seq<string>, n: Notice)
    requires forall id :: id in ids ==> id in ctx.listedEvents
    ensures multiset(Restocks(ctx, user, ids))[n]
            == if n.user == user && n.kind == Restock && n.id in ctx.rows && (user, n.id) in ctx.monitors
               && FallbackAllowed(ctx, user, n.id)
               then multiset(ids)[n.id] else 0
  {
    if ids != [] {
      Split(ids);
      RestockCount(ctx, user, ids[..|ids| - 1], n);
    }
  }

  lemma {:induction false} AdditionCount(ctx: Context, user: string, ids: seq<string>, n: Notice)
    requires forall id :: id in ids ==> id in ctx.listedEvents
    ensures multiset(Additions(ctx, user, ids))[n]
            == if n.user == user && n.kind == Added && n.id in ctx.rows && (user, n.id) !in ctx.monitors
               then multiset(ids)[n.id] else 0
  {
    if ids != [] {
      Split(ids);
      AdditionCount(ctx, user, ids[..|ids| - 1], n);
    }
  }

  lemma {:induction false} RemovalCount(ctx: Context, user: string, ids: seq<string>, n: Notice)
    ensures multiset(Removals(ctx, user, ids))[n]
            == if n.user == user && n.kind == Removed && n.id in ctx.rows then multiset(ids)[n.id] else 0
  {
    if ids != [] {
      Split(ids);
      RemovalCount(ctx, user, ids[..|ids| - 1], n);
    }
  }

  /** How often the loops tell a user they reach of one config. */
  function PerUser(ctx: Context, n: Notice): nat {
    if n.id !in ctx.rows then 0
    else match n.kind
      case Added => if (n.user, n.id) !in ctx.monitors then multiset(ctx.listedEvents)[n.id] else 0
      case Restock =>
        if (n.user, n.id) in ctx.monitors && FallbackAllowed(ctx, n.user, n.id)
        then multiset(ctx.listedEvents)[n.id] else 0
      case Removed => multiset(ctx.delisted)[n.id]
  }

  lemma ScopeNoticeCount(ctx: Context, user: string, n: Notice)
    ensures multiset(ScopeNotices(ctx, user))[n] == if n.user == user then PerUser(ctx, n) else 0
  {
    RestockCount(ctx, user, ctx.listedEvents, n);
    AdditionCount(ctx, user, ctx.listedEvents, n);
    RemovalCount(ctx, user, ctx.delisted, n);
  }

  lemma {:induction false} ScopePlanCount(ctx: Context, users: seq<string>, n: Notice)
    requires NoRepeats(users)
    ensures multiset(ScopePlan(ctx, users))[n] == if n.user in users then PerUser(ctx, n) else 0
  {
    if users != [] {
      var last := |users| - 1;
      assert users == users[..last] + [users[last]];
      ScopePlanCount(ctx, users[..last], n);
      ScopeNoticeCount(ctx, users[last], n);
    }
  }

  lemma {:induction false} MonitoredPlanCount(ctx: Context, users: seq<string>, n: Notice)
    requires NoRepeats(users)
    ensures multiset(MonitoredPlan(ctx, users))[n]
            == if n.kind == Restock && n.user in users && n.user !in ctx.scope then PerUser(ctx, n) else 0
  {
    if users != [] {
      var last := |users| - 1;
      assert users == users[..last] + [users[last]];
      MonitoredPlanCount(ctx, users[..last], n);
      RestockCount(ctx, users[last], ctx.listedEvents, n);
    }
  }

  /** The two loops together reach each subscribed user once, and each other monitoring user once
      for restocks only. */
  lemma PlanCount(ctx: Context, n: Notice)
    requires NoRepeats(ctx.scope) && NoRepeats(ctx.monitored)
    ensures multiset(Plan(ctx))[n]
            == if n.user in ctx.scope || (n.kind == Restock && n.user in ctx.monitored) then PerUser(ctx, n) else 0
  {
    ScopePlanCount(ctx, ctx.scope, n);
    MonitoredPlanCount(ctx, ctx.monitored, n);
  }

  // The order of the plan.

  function PlaceOf(items: seq<string>, item: string): (i: nat)
    ensures i <= |items| && (i < |items| ==> items[i] == item) && forall j :: 0 <= j < i ==> items[j] != item
  {
    if items == [] || items[0] == item then 0 else PlaceOf(items[1..], item) + 1
  }

  /** Subscribers come first, and then the other monitoring users. */
  function UserPlace(ctx: Context, user: string): nat {
    if user in ctx.scope then PlaceOf(ctx.scope, user) else |ctx.scope| + PlaceOf(ctx.monitored, user)
  }

  /** A user is told of restocks first, then of additions, then of removals. */
  function KindPlace(kind: Kind): nat {
    match kind
    case Restock => 0
    case Added => 1
    case Removed => 2
  }

  function IdPlace(ctx: Context, n: Notice): nat {
    PlaceOf(if n.kind == Removed then ctx.delisted else ctx.listedEvents, n.id)
  }

  predicate ComesBefore(ctx: Context, a: Notice, b: Notice) {
    var u, v, k, l := UserPlace(ctx, a.user), UserPlace(ctx, b.user), KindPlace(a.kind), KindPlace(b.kind);
    u < v || (u == v && (k < l || (k == l && IdPlace(ctx, a) < IdPlace(ctx, b))))
  }

  ghost predicate InOrder(ctx: Context, plan: seq<Notice>) {
    forall i, j :: 0 <= i < j < |plan| ==> ComesBefore(ctx, plan[i], plan[j])
  }

  lemma PlaceIs(items: seq<string>, i: nat)
    requires NoRepeats(items) && i < |items|
    ensures PlaceOf(items, items[i]) == i
  {
    var place := PlaceOf(items, items[i]);
    assert !(i < place) && !(place < i);
  }

  lemma JoinInOrder(ctx: Context, a: seq<Notice>, b: seq<Notice>)
    requires InOrder(ctx, a) && InOrder(ctx, b)
    requires forall n, m :: n in a && m in b ==> ComesBefore(ctx, n, m)
    ensures InOrder(ctx, a + b)
  {
    var all := a + b;
    forall i, j | 0 <= i < j < |all|
      ensures ComesBefore(ctx, all[i], all[j])
    {
      if i < |a| <= j {
        assert a[i] in a && b[j - |a|] in b;
      }
    }
  }

  /** A stretch about one user, in the order of the first `n` ids of its list. */
  ghost predicate IsStretch(ctx: Context, user: string, kind: Kind, n: nat, stretch: seq<Notice>) {
    && InOrder(ctx, stretch)
    && forall x :: x in stretch ==> x.user == user && x.kind == kind && IdPlace(ctx, x) < n
  }

  lemma StretchStarts(ctx: Context, user: string, kind: Kind)
    ensures IsStretch(ctx, user, kind, 0, [])
  {
  }

  lemma StretchGrows(ctx: Context, n: nat, stretch: seq<Notice>, next: Notice)
    requires IsStretch(ctx, next.user, next.kind, n, stretch) && IdPlace(ctx, next) == n
    ensures IsStretch(ctx, next.user, next.kind, n + 1, stretch)
    ensures IsStretch(ctx, next.user, next.kind, n + 1, stretch + [])
    ensures IsStretch(ctx, next.user, next.kind, n + 1, stretch + [next])
  {
    hide UserPlace, IdPlace;
    assert stretch + [] == stretch;
    JoinInOrder(ctx, stretch, [next]);
  }

  lemma {:induction false} RestocksInOrder(ctx: Context, user: string, n: nat)
    requires NoRepeats(ctx.listedEvents) && n <= |ctx.listedEvents|
    ensures IsStretch(ctx, user, Restock, n, Restocks(ctx, user, ctx.listedEvents[..n]))
  {
    hide IsStretch;
    StretchStarts(ctx, user, Restock);
    if n > 0 {
      var ids, id := ctx.listedEvents[..n], ctx.listedEvents[n - 1];
      RestocksInOrder(ctx, user, n - 1);
      PlaceIs(ctx.listedEvents, n - 1);
      assert ids[..n - 1] == ctx.listedEvents[..n - 1] && ids[n - 1] == id;
      StretchGrows(ctx, n - 1, Restocks(ctx, user, ids[..n - 1]), Notice(user, id, Restock));
    }
  }

  lemma {:induction false} AdditionsInOrder(ctx: Context, user: string, n: nat)
    requires NoRepeats(ctx.listedEvents) && n <= |ctx.listedEvents|
    ensures IsStretch(ctx, user, Added, n, Additions(ctx, user, ctx.listedEvents[..n]))
  {
    hide IsStretch;
    StretchStarts(ctx, user, Added);
    if n > 0 {
      var ids, id := ctx.listedEvents[..n], ctx.listedEvents[n - 1];
      AdditionsInOrder(ctx, user, n - 1);
      PlaceIs(ctx.listedEvents, n - 1);
      assert ids[..n - 1] == ctx.listedEvents[..n - 1] && ids[n - 1] == id;
      StretchGrows(ctx, n - 1, Additions(ctx, user, ids[..n - 1]), Notice(user, id, Added));
    }
  }

  lemma {:induction false} RemovalsInOrder(ctx: Context, user: string, n: nat)
    requires NoRepeats(ctx.delisted) && n <= |ctx.delisted|
    ensures IsStretch(ctx, user, Removed, n, Removals(ctx, user, ctx.delisted[..n]))
  {
    hide IsStretch;
    StretchStarts(ctx, user, Removed);
    if n > 0 {
      var ids, id := ctx.delisted[..n], ctx.delisted[n - 1];
      RemovalsInOrder(ctx, user, n - 1);
      PlaceIs(ctx.delisted, n - 1);
      assert ids[..n - 1] == ctx.delisted[..n - 1] && ids[n - 1] == id;
      StretchGrows(ctx, n - 1, Removals(ctx, user, ids[..n - 1]), Notice(user, id, Removed));
    }
  }

  lemma UserInOrder(ctx: Context, user: string)
    requires NoRepeats(ctx.listedEvents) && NoRepeats(ctx.delisted)
    ensures InOrder(ctx, ScopeNotices(ctx, user)) && forall x :: x in ScopeNotices(ctx, user) ==> x.user == user
    ensures InOrder(ctx, Restocks(ctx, user, ctx.listedEvents))
    ensures forall x :: x in Restocks(ctx, user, ctx.listedEvents) ==> x.user == user
  {
    hide Restocks, Additions, Removals, UserPlace, IdPlace;
    var listed, delisted := ctx.listedEvents, ctx.delisted;
    assert listed[..|listed|] == listed && delisted[..|delisted|] == delisted;
    RestocksInOrder(ctx, user, |listed|);
    AdditionsInOrder(ctx, user, |listed|);
    RemovalsInOrder(ctx, user, |delisted|);
    var restocks, additions := Restocks(ctx, user, listed), Additions(ctx, user, listed);
    JoinInOrder(ctx, restocks, additions);
    JoinInOrder(ctx, restocks + additions, Removals(ctx, user, delisted));
  }

  lemma {:induction false} ScopeInOrder(ctx: Context, n: nat)
    requires NoRepeats(ctx.listedEvents) && NoRepeats(ctx.delisted) && NoRepeats(ctx.scope) && n <= |ctx.scope|
    ensures InOrder(ctx, ScopePlan(ctx, ctx.scope[..n]))
    ensures forall x :: x in ScopePlan(ctx, ctx.scope[..n]) ==> UserPlace(ctx, x.user) < n
  {
    hide ScopeNotices;
    if n > 0 {
      ScopeInOrder(ctx, n - 1);
      assert ctx.scope[..n][..n - 1] == ctx.scope[..n - 1] && ctx.scope[..n][n - 1] == ctx.scope[n - 1];
      PlaceIs(ctx.scope, n - 1);
      UserInOrder(ctx, ctx.scope[n - 1]);
      JoinInOrder(ctx, ScopePlan(ctx, ctx.scope[..n - 1]), ScopeNotices(ctx, ctx.scope[n - 1]));
    }
  }

  lemma {:induction false} MonitoredInOrder(ctx: Context, n: nat)
    requires NoRepeats(ctx.listedEvents) && NoRepeats(ctx.delisted) && NoRepeats(ctx.monitored) && n <= |ctx.monitored|
    ensures InOrder(ctx, MonitoredPlan(ctx, ctx.monitored[..n]))
    ensures forall x :: x in MonitoredPlan(ctx, ctx.monitored[..n]) ==>
              |ctx.scope| <= UserPlace(ctx, x.user) < |ctx.scope| + n
  {
    hide Restocks;
    if n > 0 {
      MonitoredInOrder(ctx, n - 1);
      assert ctx.monitored[..n][..n - 1] == ctx.monitored[..n - 1];
      assert ctx.monitored[..n][n - 1] == ctx.monitored[n - 1];
      PlaceIs(ctx.monitored, n - 1);
      UserInOrder(ctx, ctx.monitored[n - 1]);
      JoinInOrder(ctx, MonitoredPlan(ctx, ctx.monitored[..n - 1]), MonitoringNotices(ctx, ctx.monitored[n - 1]));
    }
  }

  /** The plan goes user by user, subscribers first; each user is told of restocks, then of additions,
      then of removals; and each of these goes in the order of the lists of the run. */
  lemma PlanIsInOrder(ctx: Context)
    requires NoRepeats(ctx.listedEvents) && NoRepeats(ctx.delisted)
    requires NoRepeats(ctx.scope) && NoRepeats(ctx.monitored)
    ensures InOrder(ctx, Plan(ctx))
  {
    hide ScopePlan, MonitoredPlan;
    assert ctx.scope[..|ctx.scope|] == ctx.scope && ctx.monitored[..|ctx.monitored|] == ctx.monitored;
    ScopeInOrder(ctx, |ctx.scope|);
    MonitoredInOrder(ctx, |ctx.monitored|);
    JoinInOrder(ctx, ScopePlan(ctx, ctx.scope), MonitoredPlan(ctx, ctx.monitored));
  }

  lemma {:induction false} NoRepeatsCount<T>(items: seq<T>, item: T)
    requires NoRepeats(items)
    ensures multiset(items)[item] == if item in items then 1 else 0
  {
    if items != [] {
      Split(items);
      NoRepeatsCount(items[..|items| - 1], item);
      assert items == items[..|items| - 1] + [items[|items| - 1]];
    }
  }

  /** With distinct ids, a user gets at most one notice about a listed config over both loops:
      "added" exactly if subscribed and not monitoring it, "restock" exactly if monitoring it and
      not left to the user's own poller. */
  lemma DeliveryIsExclusive(ctx: Context, user: string, id: string)
    requires NoRepeats(ctx.scope) && NoRepeats(ctx.monitored) && NoRepeats(ctx.listedEvents)
    requires id !in ctx.delisted
    ensures var plan := multiset(Plan(ctx));
            var added, restock, removed :=
              plan[Notice(user, id, Added)], plan[Notice(user, id, Restock)], plan[Notice(user, id, Removed)];
            && added + restock + removed <= 1
            && (added == 1 <==>
                  user in ctx.scope && id in ctx.listedEvents && id in ctx.rows && (user, id) !in ctx.monitors)
            && (restock == 1 <==>
                  (user in ctx.scope || user in ctx.monitored) && id in ctx.listedEvents && id in ctx.rows
                  && (user, id) in ctx.monitors && FallbackAllowed(ctx, user, id))
  {
    PlanCount(ctx, Notice(user, id, Added));
    PlanCount(ctx, Notice(user, id, Restock));
    PlanCount(ctx, Notice(user, id, Removed));
    NoRepeatsCount(ctx.listedEvents, id);
    assert multiset(ctx.delisted)[id] == 0;
  }

  // The delivery loops.

  /** Whether a quantity change makes a restock event; the text of a fallback is built as a change
      from zero, and without an event there is no text. */
  predicate IsRestock(oldQuantity: int, newQuantity: int) {
    oldQuantity == 0 && newQuantity > 0
  }

  /** A restock text is built from the row that was loaded, and exists only if that row has stock. */
  predicate HasText(ctx: Context, n: Notice) {
    n.kind == Restock ==> n.id in ctx.rows && IsRestock(0, ctx.rows[n.id].quantity)
  }

  function FirstTextless(ctx: Context, plan: seq<Notice>): (i: nat)
    ensures i <= |plan| && forall j :: 0 <= j < i ==> HasText(ctx, plan[j])
    ensures i < |plan| ==> !HasText(ctx, plan[i])
  {
    if plan == [] || !HasText(ctx, plan[0]) then 0 else FirstTextless(ctx, plan[1..]) + 1
  }

  /** How a stretch of notices ends: the first `capacity` deliveries of a run succeed and the next one
      fails, and a notice without a text panics. Either ends the whole run. */
  datatype Outcome = Complete | Failed | Panicked

  function OutcomeOf(ctx: Context, plan: seq<Notice>, capacity: nat): Outcome {
    var i := FirstTextless(ctx, plan);
    if capacity < i then Failed else if i < |plan| then Panicked else Complete
  }

  /** What is sent of a plan. */
  function SentOf(ctx: Context, plan: seq<Notice>, capacity: nat): seq<Notice> {
    var i := FirstTextless(ctx, plan);
    plan[..if capacity < i then capacity else i]
  }

  lemma TextlessIsFirst(ctx: Context, plan: seq<Notice>, i: nat)
    requires i <= |plan| && forall j :: 0 <= j < i ==> HasText(ctx, plan[j])
    ensures i <= FirstTextless(ctx, plan)
    ensures i < |plan| && !HasText(ctx, plan[i]) ==> FirstTextless(ctx, plan) == i
  {
    var first := FirstTextless(ctx, plan);
    assert !(first < i);
  }

  /** A stretch that stopped stops the whole plan at the same notice. */
  lemma StoppingCutsThePlan(ctx: Context, done: seq<Notice>, plan: seq<Notice>, capacity: nat)
    requires done <= plan && OutcomeOf(ctx, done, capacity) != Complete
    ensures SentOf(ctx, done, capacity) == SentOf(ctx, plan, capacity)
    ensures OutcomeOf(ctx, done, capacity) == OutcomeOf(ctx, plan, capacity)
  {
    var i := FirstTextless(ctx, done);
    assert forall j :: 0 <= j < |done| ==> plan[j] == done[j];
    TextlessIsFirst(ctx, plan, i);
  }

  /** One more notice after a stretch that went through. */
  lemma OneMoreNotice(ctx: Context, sent: seq<Notice>, n: Notice, capacity: nat)
    requires OutcomeOf(ctx, sent, capacity) == Complete
    ensures var all := sent + [n];
            && OutcomeOf(ctx, all, capacity)
               == (if !HasText(ctx, n) then Panicked else if |sent| < capacity then Complete else Failed)
            && SentOf(ctx, all, capacity) == (if HasText(ctx, n) && |sent| < capacity then all else sent)
  {
    var all := sent + [n];
    assert forall j :: 0 <= j < |sent| ==> all[j] == sent[j];
    assert all[..|sent|] == sent && all[|sent|] == n;
    TextlessIsFirst(ctx, all, |sent|);
    if HasText(ctx, n) {
      TextlessIsFirst(ctx, all, |all|);
      assert all[..|all|] == all;
    }
  }

  lemma CompleteIsAllSent(ctx: Context, plan: seq<Notice>, capacity: nat)
    ensures OutcomeOf(ctx, plan, capacity) == Complete ==> SentOf(ctx, plan, capacity) == plan && |plan| <= capacity
  {
    assert plan[..|plan|] == plan;
  }

  lemma {:induction false} RestocksGrow(ctx: Context, user: string, i: nat)
    requires i <= |ctx.listedEvents|
    ensures Restocks(ctx, user, ctx.listedEvents[..i]) <= Restocks(ctx, user, ctx.listedEvents)
    decreases |ctx.listedEvents| - i
  {
    if i < |ctx.listedEvents| {
      RestocksGrow(ctx, user, i + 1);
      assert ctx.listedEvents[..i + 1][..i] == ctx.listedEvents[..i];
    } else {
      assert ctx.listedEvents[..i] == ctx.listedEvents;
    }
  }

  lemma NextRestock(ctx: Context, user: string, sent: seq<Notice>, i: nat)
    requires i < |ctx.listedEvents|
    ensures sent + Restocks(ctx, user, ctx.listedEvents[..i + 1])
            == sent + Restocks(ctx, user, ctx.listedEvents[..i]) + RestockOf(ctx, user, ctx.listedEvents[i])
  {
    assert ctx.listedEvents[..i + 1][..i] == ctx.listedEvents[..i];
    var before, more := Restocks(ctx, user, ctx.listedEvents[..i]), RestockOf(ctx, user, ctx.listedEvents[i]);
    assert sent + (before + more) == sent + before + more;
  }

  lemma {:induction false} AdditionsGrow(ctx: Context, user: string, i: nat)
    requires i <= |ctx.listedEvents|
    ensures Additions(ctx, user, ctx.listedEvents[..i]) <= Additions(ctx, user, ctx.listedEvents)
    decreases |ctx.listedEvents| - i
  {
    if i < |ctx.listedEvents| {
      AdditionsGrow(ctx, user, i + 1);
      assert ctx.listedEvents[..i + 1][..i] == ctx.listedEvents[..i];
    } else {
      assert ctx.listedEvents[..i] == ctx.listedEvents;
    }
  }

  lemma {:induction false} RemovalsGrow(ctx: Context, user: string, i: nat)
    requires i <= |ctx.delisted|
    ensures Removals(ctx, user, ctx.delisted[..i]) <= Removals(ctx, user, ctx.delisted)
    decreases |ctx.delisted| - i
  {
    if i < |ctx.delisted| {
      RemovalsGrow(ctx, user, i + 1);
      assert ctx.delisted[..i + 1][..i] == ctx.delisted[..i];
    } else {
      assert ctx.delisted[..i] == ctx.delisted;
    }
  }

  lemma {:induction false} ScopePlanGrows(ctx: Context, i: nat)
    requires i <= |ctx.scope|
    ensures ScopePlan(ctx, ctx.scope[..i]) <= ScopePlan(ctx, ctx.scope)
    decreases |ctx.scope| - i
  {
    if i < |ctx.scope| {
      ScopePlanGrows(ctx, i + 1);
      assert ctx.scope[..i + 1][..i] == ctx.scope[..i];
    } else {
      assert ctx.scope[..i] == ctx.scope;
    }
  }

  lemma NextSubscriber(ctx: Context, sent: seq<Notice>, i: nat)
    requires i < |ctx.scope|
    ensures sent + ScopePlan(ctx, ctx.scope[..i + 1])
            == sent + ScopePlan(ctx, ctx.scope[..i]) + ScopeNotices(ctx, ctx.scope[i])
  {
    assert ctx.scope[..i + 1][..i] == ctx.scope[..i];
    var plan, notices := ScopePlan(ctx, ctx.scope[..i]), ScopeNotices(ctx, ctx.scope[i]);
    assert sent + (plan + notices) == sent + plan + notices;
  }

  lemma {:induction false} MonitoredPlanGrows(ctx: Context, i: nat)
    requires i <= |ctx.monitored|
    ensures MonitoredPlan(ctx, ctx.monitored[..i]) <= MonitoredPlan(ctx, ctx.monitored)
    decreases |ctx.monitored| - i
  {
    if i < |ctx.monitored| {
      MonitoredPlanGrows(ctx, i + 1);
      assert ctx.monitored[..i + 1][..i] == ctx.monitored[..i];
    } else {
      assert ctx.monitored[..i] == ctx.monitored;
    }
  }

  lemma NextMonitoring(ctx: Context, sent: seq<Notice>, i: nat)
    requires i < |ctx.monitored|
    ensures sent + MonitoredPlan(ctx, ctx.monitored[..i + 1])
            == sent + MonitoredPlan(ctx, ctx.monitored[..i]) + MonitoringNotices(ctx, ctx.monitored[i])
  {
    assert ctx.monitored[..i + 1][..i] == ctx.monitored[..i];
    var plan := MonitoredPlan(ctx, ctx.monitored[..i]);
    var more := MonitoringNotices(ctx, ctx.monitored[i]);
    assert sent + (plan + more) == sent + plan + more;
  }

  lemma {:induction false} NothingToTell(ctx: Context, users: seq<string>)
    requires ctx.listedEvents == [] && ctx.delisted == []
    ensures ScopePlan(ctx, users) == [] && MonitoredPlan(ctx, users) == []
  {
    if users != [] {
      NothingToTell(ctx, users[..|users| - 1]);
    }
  }

  lemma {:induction false} NotMonitoring(ctx: Context, user: string, ids: seq<string>)
    requires forall id :: id in ids ==> (user, id) !in ctx.monitors
    ensures Restocks(ctx, user, ids) == []
  {
    if ids != [] {
      NotMonitoring(ctx, user, ids[..|ids| - 1]);
    }
  }

  class Outbox {
    var sent: seq<Notice>
    const capacity: nat

    constructor (capacity: nat)
      ensures sent == [] && this.capacity == capacity
    {
      this.capacity := capacity;
      sent := [];
    }

    method Deliver(notice: Notice) returns (ok: bool)
      modifies this
      ensures ok <==> |old(sent)| < capacity
      ensures sent == if ok then old(sent) + [notice] else old(sent)
    {
      ok := |sent| < capacity;
      if ok {
        sent := sent + [notice];
      }
    }

    /** Everything so far has been sent. */
    ghost predicate Running(ctx: Context)
      reads this
    {
      OutcomeOf(ctx, sent, capacity) == Complete
    }

    /** The fallback for one listed config, if there is any for this user. */
    method DeliverRestockFallback(ctx: Context, user: string, id: string) returns (outcome: Outcome)
      requires Running(ctx) && id in ctx.listedEvents
      modifies this
      ensures sent == SentOf(ctx, old(sent) + RestockOf(ctx, user, id), capacity)
      ensures outcome == OutcomeOf(ctx, old(sent) + RestockOf(ctx, user, id), capacity)
    {
      assert sent + [] == sent;
      CompleteIsAllSent(ctx, sent, capacity);
      if id !in ctx.rows || (user, id) !in ctx.monitors {
        return Complete;
      }
      var allowed := if user in ctx.waiters then id in ctx.listed else true;
      if !allowed {
        return Complete;
      }
      OneMoreNotice(ctx, sent, Notice(user, id, Restock), capacity);
      if !IsRestock(0, ctx.rows[id].quantity) {
        return Panicked;
      }
      var ok := Deliver(Notice(user, id, Restock));
      outcome := if ok then Complete else Failed;
    }

    method DeliverRestockFallbacks(ctx: Context, user: string) returns (outcome: Outcome)
      requires Running(ctx)
      modifies this
      ensures sent == SentOf(ctx, old(sent) + Restocks(ctx, user, ctx.listedEvents), capacity)
      ensures outcome == OutcomeOf(ctx, old(sent) + Restocks(ctx, user, ctx.listedEvents), capacity)
    {
      for i := 0 to |ctx.listedEvents|
        invariant sent == old(sent) + Restocks(ctx, user, ctx.listedEvents[..i]) && Running(ctx)
      {
        ghost var next := old(sent) + Restocks(ctx, user, ctx.listedEvents[..i + 1]);
        NextRestock(ctx, user, old(sent), i);
        outcome := DeliverRestockFallback(ctx, user, ctx.listedEvents[i]);
        CompleteIsAllSent(ctx, next, capacity);
        if !outcome.Complete? {
          RestocksGrow(ctx, user, i + 1);
          StoppingCutsThePlan(ctx, next, old(sent) + Restocks(ctx, user, ctx.listedEvents), capacity);
          return;
        }
      }
      assert ctx.listedEvents[..|ctx.listedEvents|] == ctx.listedEvents;
      CompleteIsAllSent(ctx, sent, capacity);
      outcome := Complete;
    }

    method DeliverAdditions(ctx: Context, user: string) returns (outcome: Outcome)
      requires Running(ctx)
      modifies this
      ensures sent == SentOf(ctx, old(sent) + Additions(ctx, user, ctx.listedEvents), capacity)
      ensures outcome == OutcomeOf(ctx, old(sent) + Additions(ctx, user, ctx.listedEvents), capacity)
    {
      for i := 0 to |ctx.listedEvents|
        invariant sent == old(sent) + Additions(ctx, user, ctx.listedEvents[..i]) && Running(ctx)
      {
        var id := ctx.listedEvents[i];
        ghost var next := old(sent) + Additions(ctx, user, ctx.listedEvents[..i + 1]);
        assert ctx.listedEvents[..i + 1][..i] == ctx.listedEvents[..i];
        if id !in ctx.rows || (user, id) in ctx.monitors {
          continue;
        }
        assert next == sent + [Notice(user, id, Added)];
        OneMoreNotice(ctx, sent, Notice(user, id, Added), capacity);
        var ok := Deliver(Notice(user, id, Added));
        if !ok {
          AdditionsGrow(ctx, user, i + 1);
          StoppingCutsThePlan(ctx, next, old(sent) + Additions(ctx, user, ctx.listedEvents), capacity);
          return Failed;
        }
      }
      assert ctx.listedEvents[..|ctx.listedEvents|] == ctx.listedEvents;
      CompleteIsAllSent(ctx, sent, capacity);
      outcome := Complete;
    }

    method DeliverRemovals(ctx: Context, user: string) returns (outcome: Outcome)
      requires Running(ctx)
      modifies this
      ensures sent == SentOf(ctx, old(sent) + Removals(ctx, user, ctx.delisted), capacity)
      ensures outcome == OutcomeOf(ctx, old(sent) + Removals(ctx, user, ctx.delisted), capacity)
    {
      for i := 0 to |ctx.delisted|
        invariant sent == old(sent) + Removals(ctx, user, ctx.delisted[..i]) && Running(ctx)
      {
        var id := ctx.delisted[i];
        ghost var next := old(sent) + Removals(ctx, user, ctx.delisted[..i + 1]);
        assert ctx.delisted[..i + 1][..i] == ctx.delisted[..i];
        if id !in ctx.rows {
          continue;
        }
        assert next == sent + [Notice(user, id, Removed)];
        OneMoreNotice(ctx, sent, Notice(user, id, Removed), capacity);
        var ok := Deliver(Notice(user, id, Removed));
        if !ok {
          RemovalsGrow(ctx, user, i + 1);
          StoppingCutsThePlan(ctx, next, old(sent) + Removals(ctx, user, ctx.delisted), capacity);
          return Failed;
        }
      }
      assert ctx.delisted[..|ctx.delisted|] == ctx.delisted;
      CompleteIsAllSent(ctx, sent, capacity);
      outcome := Complete;
    }

    /** One subscribed user: fallbacks, then additions, then removals. */
    method DeliverToSubscriber(ctx: Context, user: string) returns (outcome: Outcome)
      requires Running(ctx)
      modifies this
      ensures sent == SentOf(ctx, old(sent) + ScopeNotices(ctx, user), capacity)
      ensures outcome == OutcomeOf(ctx, old(sent) + ScopeNotices(ctx, user), capacity)
    {
      ghost var all := old(sent) + ScopeNotices(ctx, user);
      ghost var restocks := old(sent) + Restocks(ctx, user, ctx.listedEvents);
      ghost var additions := restocks + Additions(ctx, user, ctx.listedEvents);
      assert all == additions + Removals(ctx, user, ctx.delisted);
      outcome := DeliverRestockFallbacks(ctx, user);
      CompleteIsAllSent(ctx, restocks, capacity);
      if !outcome.Complete? {
        StoppingCutsThePlan(ctx, restocks, all, capacity);
        return;
      }
      outcome := DeliverAdditions(ctx, user);
      CompleteIsAllSent(ctx, additions, capacity);
      if !outcome.Complete? {
        StoppingCutsThePlan(ctx, additions, all, capacity);
        return;
      }
      outcome := DeliverRemovals(ctx, user);
    }

    method DeliverToSubscribers(ctx: Context) returns (outcome: Outcome)
      requires Running(ctx)
      modifies this
      ensures sent == SentOf(ctx, old(sent) + ScopePlan(ctx, ctx.scope), capacity)
      ensures outcome == OutcomeOf(ctx, old(sent) + ScopePlan(ctx, ctx.scope), capacity)
    {
      for i := 0 to |ctx.scope|
        invariant sent == old(sent) + ScopePlan(ctx, ctx.scope[..i]) && Running(ctx)
      {
        ghost var next := old(sent) + ScopePlan(ctx, ctx.scope[..i + 1]);
        NextSubscriber(ctx, old(sent), i);
        outcome := DeliverToSubscriber(ctx, ctx.scope[i]);
        CompleteIsAllSent(ctx, next, capacity);
        if !outcome.Complete? {
          ScopePlanGrows(ctx, i + 1);
          StoppingCutsThePlan(ctx, next, old(sent) + ScopePlan(ctx, ctx.scope), capacity);
          return;
        }
      }
      assert ctx.scope[..|ctx.scope|] == ctx.scope;
      CompleteIsAllSent(ctx, sent, capacity);
      outcome := Complete;
    }

    /** One user who monitors a listed config: restocks only, unless served as a subscriber. */
    method DeliverToMonitoringUser(ctx: Context, user: string) returns (outcome: Outcome)
      requires Running(ctx)
      modifies this
      ensures sent == SentOf(ctx, old(sent) + MonitoringNotices(ctx, user), capacity)
      ensures outcome == OutcomeOf(ctx, old(sent) + MonitoringNotices(ctx, user), capacity)
    {
      assert sent + [] == sent;
      CompleteIsAllSent(ctx, sent, capacity);
      if user in ctx.scope {
        return Complete;
      }
      if forall id :: id in ctx.listedEvents ==> (user, id) !in ctx.monitors {
        NotMonitoring(ctx, user, ctx.listedEvents);
        return Complete;
      }
      outcome := DeliverRestockFallbacks(ctx, user);
    }

    method DeliverToMonitoring(ctx: Context) returns (outcome: Outcome)
      requires Running(ctx)
      modifies this
      ensures sent == SentOf(ctx, old(sent) + MonitoredPlan(ctx, ctx.monitored), capacity)
      ensures outcome == OutcomeOf(ctx, old(sent) + MonitoredPlan(ctx, ctx.monitored), capacity)
    {
      for i := 0 to |ctx.monitored|
        invariant sent == old(sent) + MonitoredPlan(ctx, ctx.monitored[..i]) && Running(ctx)
      {
        ghost var next := old(sent) + MonitoredPlan(ctx, ctx.monitored[..i + 1]);
        NextMonitoring(ctx, old(sent), i);
        outcome := DeliverToMonitoringUser(ctx, ctx.monitored[i]);
        CompleteIsAllSent(ctx, next, capacity);
        if !outcome.Complete? {
          MonitoredPlanGrows(ctx, i + 1);
          StoppingCutsThePlan(ctx, next, old(sent) + MonitoredPlan(ctx, ctx.monitored), capacity);
          return;
        }
      }
      assert ctx.monitored[..|ctx.monitored|] == ctx.monitored;
      CompleteIsAllSent(ctx, sent, capacity);
      outcome := Complete;
    }

    /** Delivers the plan of one run, up to the first failing delivery or missing text. */
    method NotifyLifecycleEvents(ctx: Context) returns (outcome: Outcome)
      requires sent == []
      modifies this
      ensures sent == SentOf(ctx, Plan(ctx), capacity)
      ensures outcome == OutcomeOf(ctx, Plan(ctx), capacity)
    {
      if ctx.listedEvents == [] && ctx.delisted == [] {
        NothingToTell(ctx, ctx.scope);
        NothingToTell(ctx, ctx.monitored);
        return Complete;
      }
      if ctx.scope == [] && ctx.monitored == [] {
        return Complete;
      }
      ghost var subscribers := ScopePlan(ctx, ctx.scope);
      assert sent + subscribers == subscribers;
      outcome := DeliverToSubscribers(ctx);
      CompleteIsAllSent(ctx, subscribers, capacity);
      if !outcome.Complete? {
        StoppingCutsThePlan(ctx, subscribers, Plan(ctx), capacity);
        return;
      }
      outcome := DeliverToMonitoring(ctx);
    }
  }

  // What is delivered.

  /** A planned notice is reached: it has a place within the capacity, and no text is missing up to
      there. */
  predicate IsReached(ctx: Context, plan: seq<Notice>, capacity: nat, n: Notice) {
    exists i :: 0 <= i < |plan| && i < capacity && plan[i] == n && AllHaveTexts(ctx, plan, i + 1)
  }

  predicate AllHaveTexts(ctx: Context, plan: seq<Notice>, end: nat)
    requires end <= |plan|
  {
    forall j :: 0 <= j < end ==> HasText(ctx, plan[j])
  }

  lemma SentCount(ctx: Context, plan: seq<Notice>, capacity: nat, n: Notice)
    ensures multiset(SentOf(ctx, plan, capacity))[n] <= multiset(plan)[n]
    ensures n in SentOf(ctx, plan, capacity) <==> IsReached(ctx, plan, capacity, n)
  {
    var sent := SentOf(ctx, plan, capacity);
    assert plan == sent + plan[|sent|..];
    if n in sent {
      var i :| 0 <= i < |sent| && sent[i] == n;
      assert plan[i] == n && AllHaveTexts(ctx, plan, i + 1);
    }
    if IsReached(ctx, plan, capacity, n) {
      var i :| 0 <= i < |plan| && i < capacity && plan[i] == n && AllHaveTexts(ctx, plan, i + 1);
      TextlessIsFirst(ctx, plan, i + 1);
      assert sent[i] == n;
    }
  }

  /** Even when the run stops early, no user is told twice of one config by one run. */
  lemma NeverTwice(ctx: Context, capacity: nat, user: string, id: string)
    requires NoRepeats(ctx.scope) && NoRepeats(ctx.monitored) && NoRepeats(ctx.listedEvents)
    requires id !in ctx.delisted
    ensures var sent := multiset(SentOf(ctx, Plan(ctx), capacity));
            sent[Notice(user, id, Added)] + sent[Notice(user, id, Restock)] + sent[Notice(user, id, Removed)] <= 1
  {
    DeliveryIsExclusive(ctx, user, id);
    SentCount(ctx, Plan(ctx), capacity, Notice(user, id, Added));
    SentCount(ctx, Plan(ctx), capacity, Notice(user, id, Restock));
    SentCount(ctx, Plan(ctx), capacity, Notice(user, id, Removed));
  }

  predicate Serves(ctx: Context, user: string) {
    user in ctx.scope || user in ctx.monitored
  }

  /** The run means to tell a user whom it serves of a restock: the user monitors a told config and is
      not left to the own poll. */
  predicate Tells(ctx: Context, user: string, id: string) {
    && Serves(ctx, user)
    && id in ctx.rows && Monitors(ctx, user, id) && FallbackAllowed(ctx, user, id)
  }

  lemma PlannedRestocks(ctx: Context, user: string, id: string)
    requires NoRepeats(ctx.scope) && NoRepeats(ctx.monitored)
    ensures Notice(user, id, Restock) in Plan(ctx) <==> Tells(ctx, user, id)
  {
    var n := Notice(user, id, Restock);
    PlanCount(ctx, n);
    assert n in Plan(ctx) <==> multiset(Plan(ctx))[n] > 0;
    assert id in ctx.listedEvents <==> multiset(ctx.listedEvents)[id] > 0;
  }

  /** Every config that the run means to tell someone of had stock when its row was loaded. */
  ghost predicate RestocksHaveStock(ctx: Context) {
    forall user, id :: Tells(ctx, user, id) ==> ctx.rows[id].quantity > 0
  }

  lemma TextsExistExactly(ctx: Context)
    requires NoRepeats(ctx.scope) && NoRepeats(ctx.monitored)
    ensures RestocksHaveStock(ctx) <==> AllHaveTexts(ctx, Plan(ctx), |Plan(ctx)|)
  {
    var plan := Plan(ctx);
    if RestocksHaveStock(ctx) {
      forall j | 0 <= j < |plan|
        ensures HasText(ctx, plan[j])
      {
        if plan[j].kind == Restock {
          PlannedRestocks(ctx, plan[j].user, plan[j].id);
          assert plan[j] == Notice(plan[j].user, plan[j].id, Restock);
        }
      }
    }
    if AllHaveTexts(ctx, plan, |plan|) {
      forall user, id | Tells(ctx, user, id)
        ensures ctx.rows[id].quantity > 0
      {
        PlannedRestocks(ctx, user, id);
        var j :| 0 <= j < |plan| && plan[j] == Notice(user, id, Restock);
      }
    }
  }

  /** A run whose deliveries succeed panics exactly if it means to tell some user of a config whose
      row had no stock when it was loaded, and otherwise delivers its whole plan. A run with failing
      deliveries panics only then. */
  lemma PanicsExactly(ctx: Context, capacity: nat)
    requires NoRepeats(ctx.scope) && NoRepeats(ctx.monitored)
    ensures OutcomeOf(ctx, Plan(ctx), capacity).Panicked? ==> !RestocksHaveStock(ctx)
    ensures |Plan(ctx)| <= capacity ==>
              OutcomeOf(ctx, Plan(ctx), capacity) == if RestocksHaveStock(ctx) then Complete else Panicked
    ensures |Plan(ctx)| <= capacity && RestocksHaveStock(ctx) ==> SentOf(ctx, Plan(ctx), capacity) == Plan(ctx)
  {
    TextsExistExactly(ctx);
    CompleteIsAllSent(ctx, Plan(ctx), capacity);
  }

  /** The run stops before it reaches a notice that it planned. */
  predicate StopsBefore(ctx: Context, capacity: nat, n: Notice) {
    n in Plan(ctx) && !IsReached(ctx, Plan(ctx), capacity, n)
  }

  /** A monitoring user whom the run serves is told of a config by the fallback, unless left to the
      own poll or the run stops before. */
  lemma RestockToldExactly(ctx: Context, capacity: nat, user: string, id: string)
    requires NoRepeats(ctx.scope) && NoRepeats(ctx.monitored) && multiset(ctx.listedEvents)[id] == 1
    requires Serves(ctx, user) && (user, id) in ctx.monitors && id in ctx.rows
    ensures var n := Notice(user, id, Restock);
            multiset(SentOf(ctx, Plan(ctx), capacity))[n]
            == if FallbackAllowed(ctx, user, id) && !StopsBefore(ctx, capacity, n) then 1 else 0
  {
    var n := Notice(user, id, Restock);
    PlanCount(ctx, n);
    SentCount(ctx, Plan(ctx), capacity, n);
    var sent := SentOf(ctx, Plan(ctx), capacity);
    assert n in sent <==> multiset(sent)[n] > 0;
    assert n in Plan(ctx) <==> multiset(Plan(ctx))[n] > 0;
  }

  /** No run stops before a notice if all deliveries succeed and all texts exist; and every run stops
      before the restock of a config without stock. */
  lemma StopsOnlyForAReason(ctx: Context, capacity: nat, n: Notice)
    requires NoRepeats(ctx.scope) && NoRepeats(ctx.monitored)
    ensures |Plan(ctx)| <= capacity && RestocksHaveStock(ctx) ==> !StopsBefore(ctx, capacity, n)
    ensures n.kind == Restock && Tells(ctx, n.user, n.id) && ctx.rows[n.id].quantity <= 0 ==>
              StopsBefore(ctx, capacity, n)
  {
    PanicsExactly(ctx, capacity);
    SentCount(ctx, Plan(ctx), capacity, n);
    PlannedRestocks(ctx, n.user, n.id);
  }
}
