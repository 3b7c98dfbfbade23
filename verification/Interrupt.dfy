/** code/machine/interrupt.cc: the discrete-event loop that drives the simulated hardware.

    Handlers are arbitrary, except that they only schedule events in the future: `plan(id)` lists the delays that the
    handler of event number `id` asks for.  Events are numbered in the order in which they are scheduled. */
module Interrupts {
  import opened Lists

  const SYSTEM_TICK := 10
  const USER_TICK := 1

  datatype Event = Event(when: int, id: nat)

  type Plan = nat -> seq<int>

  ghost predicate PlanOk(plan: Plan) {
    forall id: nat, k: nat :: k < |plan(id)| ==> plan(id)[k] > 0
  }

  function Compare(x: Event, y: Event): int {
    if x.when < y.when then -1 else if x.when > y.when then 1 else 0
  }

  /** The clock with its three accounts, the pending list, and the history: all events ever scheduled, and those fired
      with the time at which they were. */
  datatype State = State(now: int, idle: int, system: int, user: int, pending: seq<Event>,
                         scheduled: seq<Event>, fired: seq<Event>, firedAt: seq<int>)

  function Schedule(s: State, fromNow: int): State {
    var e := Event(s.now + fromNow, |s.scheduled|);
    s.(pending := Inserted(s.pending, e, Compare), scheduled := s.scheduled + [e])
  }

  function ScheduleAll(s: State, delays: seq<int>): State
    decreases |delays|
  {
    if delays == [] then s else ScheduleAll(Schedule(s, delays[0]), delays[1..])
  }

  /** The first pending event is taken off the list and its handler runs. */
  function FireFirst(s: State, plan: Plan): State
    requires s.pending != []
  {
    var next := s.pending[0];
    ScheduleAll(s.(pending := s.pending[1..], fired := s.fired + [next], firedAt := s.firedAt + [s.now]), plan(next.id))
  }

  /** How many events are due. */
  function Due(pending: seq<Event>, now: int): nat {
    if pending == [] then 0 else (if pending[0].when <= now then 1 else 0) + Due(pending[1..], now)
  }

  lemma {:induction false} DueSplits(p: seq<Event>, q: seq<Event>, now: int)
    ensures Due(p + q, now) == Due(p, now) + Due(q, now)
  {
    if p == [] {
      assert p + q == q;
    } else {
      DueSplits(p[1..], q, now);
      assert (p + q)[1..] == p[1..] + q;
    }
  }

  lemma DueInserted(p: seq<Event>, e: Event, now: int)
    requires e.when > now
    ensures Due(Inserted(p, e, Compare), now) == Due(p, now)
  {
    var k := Position(p, e, Compare);
    DueSplits(p[..k] + [e], p[k..], now);
    DueSplits(p[..k], [e], now);
    DueSplits(p[..k], p[k..], now);
    assert p == p[..k] + p[k..];
    assert Due([e], now) == 0;
  }

  /** What handlers schedule is never due at once. */
  lemma {:induction false} DueScheduled(s: State, delays: seq<int>)
    requires forall k :: 0 <= k < |delays| ==> delays[k] > 0
    ensures Due(ScheduleAll(s, delays).pending, s.now) == Due(s.pending, s.now)
    ensures var s' := ScheduleAll(s, delays);
            s' == s.(pending := s'.pending, scheduled := s'.scheduled) && s.scheduled <= s'.scheduled
    decreases |delays|
  {
    hide Inserted, Due;
    if delays != [] {
      DueInserted(s.pending, Event(s.now + delays[0], |s.scheduled|), s.now);
      DueScheduled(Schedule(s, delays[0]), delays[1..]);
    }
  }

  lemma FireFirstCounts(s: State, plan: Plan)
    requires PlanOk(plan) && s.pending != [] && s.pending[0].when <= s.now
    ensures Due(FireFirst(s, plan).pending, s.now) == Due(s.pending, s.now) - 1 && FireFirst(s, plan).now == s.now
  {
    var next := s.pending[0];
    var taken := s.(pending := s.pending[1..], fired := s.fired + [next], firedAt := s.firedAt + [s.now]);
    DueScheduled(taken, plan(next.id));
  }

  /** Fires until the first pending event is not due.  It ends although every handler may schedule more. */
  function FireDue(s: State, plan: Plan): State
    requires PlanOk(plan)
    decreases Due(s.pending, s.now)
  {
    if s.pending == [] || s.pending[0].when > s.now then s
    else
      FireFirstCounts(s, plan);
      FireDue(FireFirst(s, plan), plan)
  }

  /** CheckIfDue: whether anything fired, and the state after it. */
  function CheckIfDue(s: State, plan: Plan, advanceClock: bool): (r: (State, bool))
    requires PlanOk(plan)
  {
    if s.pending == [] then (s, false)
    else
      var next := s.pending[0];
      if next.when > s.now then
        if !advanceClock then (s, false)
        else (FireDue(s.(idle := s.idle + (next.when - s.now), now := next.when), plan), true)
      else (FireDue(s, plan), true)
  }

  function OneTick(s: State, plan: Plan, systemMode: bool): State
    requires PlanOk(plan)
  {
    var ticked := if systemMode then s.(now := s.now + SYSTEM_TICK, system := s.system + SYSTEM_TICK)
                  else s.(now := s.now + USER_TICK, user := s.user + USER_TICK);
    CheckIfDue(ticked, plan, false).0
  }

  function Idle(s: State, plan: Plan): State
    requires PlanOk(plan)
  {
    CheckIfDue(s, plan, true).0
  }

  // ----- Every run -----

  /** Time order, and among events of the same time the order of scheduling. */
  predicate Before(x: Event, y: Event) {
    x.when < y.when || (x.when == y.when && x.id < y.id)
  }

  ghost predicate Ordered(s: seq<Event>) {
    forall i, j :: 0 <= i < j < |s| ==> Before(s[i], s[j])
  }

  ghost predicate History(s: State) {
    && Ordered(s.fired + s.pending)
    && multiset(s.fired + s.pending) == multiset(s.scheduled)
    && (forall i :: 0 <= i < |s.scheduled| ==> s.scheduled[i].id == i)
    && |s.firedAt| == |s.fired|
    && (forall i :: 0 <= i < |s.fired| ==> s.fired[i].when <= s.firedAt[i] <= s.now)
  }

  /** Fired events and pending events together are all that were ever scheduled, each once, in order; none fired early;
      and the clock is the sum of its accounts. */
  ghost predicate Inv(s: State) {
    History(s) && s.now == s.idle + s.system + s.user
  }

  /** Nothing is due. */
  ghost predicate Quiet(s: State) {
    forall i :: 0 <= i < |s.pending| ==> s.pending[i].when > s.now
  }

  lemma InsertedBag(fired: seq<Event>, p: seq<Event>, e: Event, k: nat)
    requires k <= |p|
    ensures multiset(fired + With(p, k, e)) == multiset(fired + p) + multiset{e}
  {
    assert p == p[..k] + p[k..];
    assert With(p, k, e) == p[..k] + [e] + p[k..];
  }

  /** Insertion keeps the order, and puts the newest last among equals. */
  lemma InsertKeepsOrder(fired: seq<Event>, p: seq<Event>, e: Event, now: int)
    requires Ordered(fired + p) && e.when > now
    requires forall i :: 0 <= i < |p| ==> p[i].id < e.id
    requires forall i :: 0 <= i < |fired| ==> fired[i].when <= now
    ensures Ordered(fired + Inserted(p, e, Compare))
    ensures multiset(fired + Inserted(p, e, Compare)) == multiset(fired + p) + multiset{e}
  {
    hide With, Position;
    var k := Position(p, e, Compare);
    InsertedBag(fired, p, e, k);
    forall i, j | 0 <= i < j < |fired + With(p, k, e)|
      ensures Before((fired + With(p, k, e))[i], (fired + With(p, k, e))[j])
    {
      InsertedPair(fired, p, e, k, i, j);
    }
  }

  /** Two elements of the longer list are in order. */
  lemma InsertedPair(fired: seq<Event>, p: seq<Event>, e: Event, k: nat, i: nat, j: nat)
    requires Ordered(fired + p) && k <= |p| && i < j < |fired| + |p| + 1
    requires forall x :: 0 <= x < |p| ==> p[x].id < e.id
    requires forall x :: 0 <= x < |fired| ==> fired[x].when < e.when
    requires forall x :: 0 <= x < k ==> p[x].when <= e.when
    requires k < |p| ==> e.when < p[k].when
    ensures Before((fired + With(p, k, e))[i], (fired + With(p, k, e))[j])
  {
    hide With;
    var n := |fired|;
    var at := n + k;
    var i0, j0 := if i < at then i else i - 1, if j < at then j else j - 1;
    assert i == at < j0 ==> Before((fired + p)[at], (fired + p)[j0]);
    assert i != at ==> (fired + With(p, k, e))[i] == (fired + p)[i0];
    assert j != at ==> (fired + With(p, k, e))[j] == (fired + p)[j0];
  }

  lemma PendingIds(s: State)
    requires History(s)
    ensures forall i :: 0 <= i < |s.pending| ==> s.pending[i].id < |s.scheduled|
  {
    forall i | 0 <= i < |s.pending|
      ensures s.pending[i].id < |s.scheduled|
    {
      assert (s.fired + s.pending)[|s.fired| + i] in multiset(s.scheduled);
    }
  }

  lemma ScheduleKeepsHistory(s: State, fromNow: int)
    requires History(s) && fromNow > 0
    ensures History(Schedule(s, fromNow))
  {
    hide Ordered, Inserted;
    PendingIds(s);
    InsertKeepsOrder(s.fired, s.pending, Event(s.now + fromNow, |s.scheduled|), s.now);
  }

  lemma {:induction false} HandlerKeepsHistory(s: State, delays: seq<int>)
    requires History(s) && forall k :: 0 <= k < |delays| ==> delays[k] > 0
    ensures History(ScheduleAll(s, delays))
    decreases |delays|
  {
    hide History;
    if delays != [] {
      ScheduleKeepsHistory(s, delays[0]);
      HandlerKeepsHistory(Schedule(s, delays[0]), delays[1..]);
    }
  }

  lemma FireFirstKeepsHistory(s: State, plan: Plan)
    requires PlanOk(plan) && History(s) && s.pending != [] && s.pending[0].when <= s.now
    ensures History(FireFirst(s, plan))
    ensures var s' := FireFirst(s, plan);
            s' == s.(pending := s'.pending, scheduled := s'.scheduled, fired := s.fired + [s.pending[0]],
                     firedAt := s.firedAt + [s.now])
  {
    var next := s.pending[0];
    assert s.fired + [next] + s.pending[1..] == s.fired + s.pending;
    var taken := s.(pending := s.pending[1..], fired := s.fired + [next], firedAt := s.firedAt + [s.now]);
    assert History(taken);
    HandlerKeepsHistory(taken, plan(next.id));
    DueScheduled(taken, plan(next.id));
  }

  /** The loop fires everything that is due, only that, and in order; what is left is not due. */
  lemma {:induction false} FireDueOk(s: State, plan: Plan)
    requires PlanOk(plan) && History(s)
    ensures var s' := FireDue(s, plan);
            && History(s') && Quiet(s') && s.fired <= s'.fired
            && s' == s.(pending := s'.pending, scheduled := s'.scheduled, fired := s'.fired, firedAt := s'.firedAt)
    decreases Due(s.pending, s.now)
  {
    hide Due, FireFirst, Ordered;
    if s.pending == [] || s.pending[0].when > s.now {
      QuietIfFirstIs(s);
    } else {
      FireFirstCounts(s, plan);
      FireFirstKeepsHistory(s, plan);
      FireDueOk(FireFirst(s, plan), plan);
    }
  }

  lemma QuietIfFirstIs(s: State)
    requires History(s) && (s.pending == [] || s.pending[0].when > s.now)
    ensures Quiet(s)
  {
    forall i | 0 < i < |s.pending|
      ensures s.pending[i].when > s.now
    {
      assert Before((s.fired + s.pending)[|s.fired|], (s.fired + s.pending)[|s.fired| + i]);
    }
  }

  /** Nothing is due after CheckIfDue, whatever it returns; it returns true exactly when it fired something. */
  lemma CheckIfDueOk(s: State, plan: Plan, advanceClock: bool)
    requires PlanOk(plan) && Inv(s)
    ensures var (s', any) := CheckIfDue(s, plan, advanceClock);
            && Inv(s') && Quiet(s') && s.fired <= s'.fired
            && any == (|s'.fired| > |s.fired|)
            && any == (s.pending != [] && (advanceClock || s.pending[0].when <= s.now))
            && s'.now == (if any && s.pending[0].when > s.now then s.pending[0].when else s.now)
            && s'.system == s.system && s'.user == s.user
  {
    hide History, FireDue;
    if s.pending == [] || (s.pending[0].when > s.now && !advanceClock) {
      QuietIfFirstIs(s);
    } else {
      var next := s.pending[0];
      var due := if next.when > s.now then s.(idle := s.idle + (next.when - s.now), now := next.when) else s;
      LaterHistory(s, due.now, due.idle);
      FireDueOk(due, plan);
      FireDueFires(due, plan);
    }
  }

  lemma LaterHistory(s: State, now: int, idle: int)
    requires History(s) && s.now <= now
    ensures History(s.(idle := idle, now := now))
  {
  }

  lemma FireDueFires(s: State, plan: Plan)
    requires PlanOk(plan) && History(s) && s.pending != [] && s.pending[0].when <= s.now
    ensures |FireDue(s, plan).fired| > |s.fired|
  {
    hide History, FireFirst;
    FireFirstKeepsHistory(s, plan);
    FireFirstCounts(s, plan);
    FireDueOk(FireFirst(s, plan), plan);
  }

  datatype Step = SystemTick | UserTick | IdleTick | Request(fromNow: int)

  function Do(s: State, plan: Plan, step: Step): State
    requires PlanOk(plan)
  {
    match step
    case SystemTick => OneTick(s, plan, true)
    case UserTick => OneTick(s, plan, false)
    case IdleTick => Idle(s, plan)
    case Request(fromNow) => Schedule(s, fromNow)
  }

  /** The state after all steps, from a machine that has just started. */
  function After(plan: Plan, steps: seq<Step>): State
    requires PlanOk(plan)
  {
    if steps == [] then State(0, 0, 0, 0, [], [], [], [])
    else Do(After(plan, steps[..|steps| - 1]), plan, steps[|steps| - 1])
  }

  ghost predicate StepsOk(steps: seq<Step>) {
    forall i :: 0 <= i < |steps| && steps[i].Request? ==> steps[i].fromNow > 0
  }

  lemma TickKeepsHistory(s: State, plan: Plan, systemMode: bool)
    requires PlanOk(plan) && Inv(s)
    ensures Inv(OneTick(s, plan, systemMode)) && Quiet(OneTick(s, plan, systemMode))
  {
    hide CheckIfDue, Quiet;
    var ticked := if systemMode then s.(now := s.now + SYSTEM_TICK, system := s.system + SYSTEM_TICK)
                  else s.(now := s.now + USER_TICK, user := s.user + USER_TICK);
    assert Inv(ticked);
    CheckIfDueOk(ticked, plan, false);
  }

  lemma RequestIsLater(s: State, fromNow: int)
    requires Inv(s) && Quiet(s) && fromNow > 0
    ensures Inv(Schedule(s, fromNow)) && Quiet(Schedule(s, fromNow))
  {
    ScheduleKeepsHistory(s, fromNow);
    hide History;
  }

  /** In every reachable state each event that was ever scheduled has fired exactly when its time has come, never
      early, in time order and first-come first among equals; and the ticks add up. */
  lemma {:induction false} EveryRun(plan: Plan, steps: seq<Step>)
    requires PlanOk(plan) && StepsOk(steps)
    ensures Inv(After(plan, steps)) && Quiet(After(plan, steps))
    decreases |steps|
  {
    hide History, Schedule, OneTick, CheckIfDue, Quiet;
    if steps == [] {
      StartOk();
    } else {
      var before := steps[..|steps| - 1];
      EveryRun(plan, before);
      var s := After(plan, before);
      match steps[|steps| - 1]
      case SystemTick => TickKeepsHistory(s, plan, true);
      case UserTick => TickKeepsHistory(s, plan, false);
      case IdleTick => CheckIfDueOk(s, plan, true);
      case Request(fromNow) =>
        RequestIsLater(s, fromNow);
    }
  }

  lemma StartOk()
    ensures History(State(0, 0, 0, 0, [], [], [], [])) && Quiet(State(0, 0, 0, 0, [], [], [], []))
  {
  }

  /** So the fired events are exactly those whose time has come. */
  lemma FiredWhenDue(plan: Plan, steps: seq<Step>, e: Event)
    requires PlanOk(plan) && StepsOk(steps)
    ensures var s := After(plan, steps);
            e in s.fired <==> e in s.scheduled && e.when <= s.now
  {
    hide After, Ordered;
    EveryRun(plan, steps);
    var s := After(plan, steps);
    assert e in multiset(s.scheduled) <==> e in multiset(s.fired + s.pending);
    assert e in multiset(s.fired + s.pending) <==> e in s.fired || e in s.pending;
  }
}
