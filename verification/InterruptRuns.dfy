/** When the events of a run come from and when they fire: each one as many ticks after it was asked for as was asked.
    */
module InterruptRuns {
  import opened Lists
  import opened Interrupts

  /** The events for these delays, asked for at time `now`, numbered from `n` on. */
  function Made(delays: seq<int>, now: int, n: nat): (es: seq<Event>)
    ensures |es| == |delays|
  {
    seq(|delays|, k requires 0 <= k < |delays| => Event(now + delays[k], n + k))
  }

  /** The events that the handlers of these events ask for at time `now`, one handler after the other. */
  function MadeByAll(plan: Plan, fired: seq<Event>, now: int, n: nat): seq<Event> {
    if fired == [] then []
    else Made(plan(fired[0].id), now, n) + MadeByAll(plan, fired[1..], now, n + |plan(fired[0].id)|)
  }

  lemma {:induction false} ScheduleAllMakes(s: State, delays: seq<int>)
    ensures var s' := ScheduleAll(s, delays);
            && s'.scheduled == s.scheduled + Made(delays, s.now, |s.scheduled|)
            && s' == s.(pending := s'.pending, scheduled := s'.scheduled)
    decreases |delays|
  {
    hide Inserted;
    if delays != [] {
      var s1 := Schedule(s, delays[0]);
      ScheduleAllMakes(s1, delays[1..]);
      assert [Event(s.now + delays[0], |s.scheduled|)] + Made(delays[1..], s.now, |s.scheduled| + 1)
          == Made(delays, s.now, |s.scheduled|);
    }
  }

  /** `s'` is `s` after the events `fired` have been fired, at time `s.now`. */
  ghost predicate FiredThese(s: State, plan: Plan, fired: seq<Event>, s': State) {
    && s'.now == s.now && s'.fired == s.fired + fired
    && s'.firedAt == s.firedAt + seq(|fired|, _ => s.now)
    && s'.scheduled == s.scheduled + MadeByAll(plan, fired, s.now, |s.scheduled|)
  }

  lemma {:induction false} FireDueMakes(s: State, plan: Plan) returns (fired: seq<Event>)
    requires PlanOk(plan)
    ensures FiredThese(s, plan, fired, FireDue(s, plan))
    ensures var s' := FireDue(s, plan); s'.idle == s.idle && s'.system == s.system && s'.user == s.user
    decreases Due(s.pending, s.now)
  {
    hide Due, Inserted, Made;
    if s.pending == [] || s.pending[0].when > s.now {
      fired := [];
    } else {
      FireFirstCounts(s, plan);
      var next := s.pending[0];
      var taken := s.(pending := s.pending[1..], fired := s.fired + [next], firedAt := s.firedAt + [s.now]);
      ScheduleAllMakes(taken, plan(next.id));
      var rest := FireDueMakes(FireFirst(s, plan), plan);
      fired := [next] + rest;
      assert fired[1..] == rest;
    }
  }

  /** A system tick takes ten ticks, a user tick one; idle time passes up to the next event, if there is one. */
  ghost predicate StepTakes(s: State, step: Step, s': State) {
    && s'.system == s.system + (if step.SystemTick? then 10 else 0)
    && s'.user == s.user + (if step.UserTick? then 1 else 0)
    && s'.idle == s.idle + (if step.IdleTick? && s.pending != [] && s.pending[0].when > s.now
                            then s.pending[0].when - s.now else 0)
    && s'.now == s.now + (s'.system - s.system) + (s'.user - s.user) + (s'.idle - s.idle)
  }

  /** What a step adds to the history: a request makes one event, the handlers that run make theirs. */
  ghost predicate StepMakes(s: State, plan: Plan, step: Step, s': State) {
    if step.Request? then
      && s'.now == s.now && s'.fired == s.fired && s'.firedAt == s.firedAt
      && s'.scheduled == s.scheduled + [Event(s.now + step.fromNow, |s.scheduled|)]
    else
      && |s.fired| <= |s'.fired|
      && FiredThese(s.(now := s'.now), plan, s'.fired[|s.fired|..], s')
  }

  lemma DoMakes(s: State, plan: Plan, step: Step)
    requires PlanOk(plan)
    ensures StepMakes(s, plan, step, Do(s, plan, step)) && StepTakes(s, step, Do(s, plan, step))
  {
    hide FireDue, Inserted;
    if !step.Request? {
      var advance := step.IdleTick?;
      var s1 := match step
        case SystemTick => s.(now := s.now + SYSTEM_TICK, system := s.system + SYSTEM_TICK)
        case UserTick => s.(now := s.now + USER_TICK, user := s.user + USER_TICK)
        case _ => s;
      var s' := Do(s, plan, step);
      assert s' == CheckIfDue(s1, plan, advance).0;
      if CheckIfDue(s1, plan, advance).1 {
        var s2 := if s1.pending[0].when > s1.now
                  then s1.(idle := s1.idle + (s1.pending[0].when - s1.now), now := s1.pending[0].when) else s1;
        var fired := FireDueMakes(s2, plan);
        assert s'.fired[|s.fired|..] == fired;
      } else {
        assert s'.fired[|s.fired|..] == [];
      }
    }
  }

  // ----- Whole runs -----

  lemma LastStep(plan: Plan, steps: seq<Step>)
    requires PlanOk(plan) && steps != []
    ensures var before, last := steps[..|steps| - 1], steps[|steps| - 1];
            && StepMakes(After(plan, before), plan, last, After(plan, steps))
            && StepTakes(After(plan, before), last, After(plan, steps))
  {
    hide Do, StepMakes, StepTakes;
    DoMakes(After(plan, steps[..|steps| - 1]), plan, steps[|steps| - 1]);
  }

  function Count(steps: seq<Step>, step: Step): nat {
    if steps == [] then 0
    else Count(steps[..|steps| - 1], step) + if steps[|steps| - 1] == step then 1 else 0
  }

  /** The accounts of the clock are its ticks, counted. */
  lemma {:induction false} ClockCounts(plan: Plan, steps: seq<Step>)
    requires PlanOk(plan)
    ensures var s := After(plan, steps);
            && s.system == 10 * Count(steps, SystemTick) && s.user == Count(steps, UserTick)
            && s.now == s.idle + s.system + s.user
    decreases |steps|
  {
    hide Do, StepMakes;
    if steps != [] {
      ClockCounts(plan, steps[..|steps| - 1]);
      LastStep(plan, steps);
    }
  }

  /** The history only grows. */
  lemma {:induction false} Grows(plan: Plan, steps: seq<Step>, i: nat)
    requires PlanOk(plan) && i <= |steps|
    ensures var s, s' := After(plan, steps[..i]), After(plan, steps);
            s.scheduled <= s'.scheduled && s.fired <= s'.fired && s.firedAt <= s'.firedAt
    decreases |steps|
  {
    hide Do, StepTakes, After, MadeByAll;
    if i == |steps| {
      assert steps[..i] == steps;
    } else {
      var before := steps[..|steps| - 1];
      assert before[..i] == steps[..i];
      Grows(plan, before, i);
      LastStep(plan, steps);
    }
  }

  /** An event fires as soon as the clock has reached its time, and not before. */
  ghost predicate FiresWhenDue(s: State, e: Event) {
    && (e in s.fired <==> e.when <= s.now)
    && forall p :: 0 <= p < |s.fired| && p < |s.firedAt| && s.fired[p] == e ==> e.when <= s.firedAt[p]
  }

  lemma ScheduledFires(plan: Plan, steps: seq<Step>, e: Event)
    requires PlanOk(plan) && StepsOk(steps) && e in After(plan, steps).scheduled
    ensures FiresWhenDue(After(plan, steps), e)
  {
    hide After, Ordered;
    EveryRun(plan, steps);
    FiredWhenDue(plan, steps, e);
  }

  /** What the code asks for `d` ticks from now fires `d` ticks later by the clock, and not before. */
  lemma RequestFires(plan: Plan, steps: seq<Step>, i: nat)
    requires PlanOk(plan) && StepsOk(steps) && i < |steps| && steps[i].Request?
    ensures var s, s' := After(plan, steps[..i]), After(plan, steps);
            var e := Event(s.now + steps[i].fromNow, |s.scheduled|);
            |s.scheduled| < |s'.scheduled| && s'.scheduled[|s.scheduled|] == e && FiresWhenDue(s', e)
  {
    hide After, FiresWhenDue, StepTakes;
    var upTo := steps[..i + 1];
    assert upTo[..i] == steps[..i];
    LastStep(plan, upTo);
    Grows(plan, steps, i + 1);
    var s := After(plan, steps[..i]);
    var e := Event(s.now + steps[i].fromNow, |s.scheduled|);
    assert After(plan, upTo).scheduled[|s.scheduled|] == e;
    assert After(plan, steps).scheduled[|s.scheduled|] == e;
    ScheduledFires(plan, steps, e);
  }

  /** Where in the list of made events those of handler `p` begin. */
  function Offset(plan: Plan, fired: seq<Event>, p: nat): nat
    requires p <= |fired|
    decreases p
  {
    if p == 0 then 0 else |plan(fired[0].id)| + Offset(plan, fired[1..], p - 1)
  }

  lemma {:induction false} MadeAt(plan: Plan, fired: seq<Event>, now: int, n: nat, p: nat, k: nat)
    requires p < |fired| && k < |plan(fired[p].id)|
    ensures var m := Offset(plan, fired, p) + k; var made := MadeByAll(plan, fired, now, n);
            m < |made| && made[m] == Event(now + plan(fired[p].id)[k], n + m)
    decreases p
  {
    if p > 0 {
      MadeAt(plan, fired[1..], now, n + |plan(fired[0].id)|, p - 1, k);
    }
  }

  /** What the handler of a fired event asks for as its k-th delay fires that long after the handler ran. */
  lemma {:induction false} HandlerFires(plan: Plan, steps: seq<Step>, p: nat, k: nat) returns (m: nat)
    requires PlanOk(plan) && StepsOk(steps)
    requires p < |After(plan, steps).fired| && k < |plan(After(plan, steps).fired[p].id)|
    ensures var s := After(plan, steps);
            && p < |s.firedAt| && m < |s.scheduled|
            && s.scheduled[m] == Event(s.firedAt[p] + plan(s.fired[p].id)[k], m)
            && FiresWhenDue(s, s.scheduled[m])
  {
    hide Do, FiresWhenDue;
    m := HandlerMade(plan, steps, p, k);
    ScheduledFires(plan, steps, After(plan, steps).scheduled[m]);
  }

  lemma {:induction false} HandlerMade(plan: Plan, steps: seq<Step>, p: nat, k: nat) returns (m: nat)
    requires PlanOk(plan) && StepsOk(steps)
    requires p < |After(plan, steps).fired| && k < |plan(After(plan, steps).fired[p].id)|
    ensures var s := After(plan, steps);
            && p < |s.firedAt| && m < |s.scheduled|
            && s.scheduled[m] == Event(s.firedAt[p] + plan(s.fired[p].id)[k], m)
    decreases |steps|
  {
    hide Do, StepTakes, StepMakes, Inv, Quiet;
    var before := steps[..|steps| - 1];
    var s := After(plan, before);
    LastStep(plan, steps);
    TimesRecorded(plan, before);
    if p < |s.fired| {
      Grows(plan, steps, |steps| - 1);
      m := HandlerMade(plan, before, p, k);
    } else {
      m := MadeInStep(s, plan, steps[|steps| - 1], After(plan, steps), p, k);
    }
  }

  lemma TimesRecorded(plan: Plan, steps: seq<Step>)
    requires PlanOk(plan) && StepsOk(steps)
    ensures |After(plan, steps).firedAt| == |After(plan, steps).fired|
  {
    hide After, Ordered;
    EveryRun(plan, steps);
  }

  lemma MadeInStep(s: State, plan: Plan, step: Step, s': State, p: nat, k: nat) returns (m: nat)
    requires StepMakes(s, plan, step, s') && |s.firedAt| == |s.fired| <= p < |s'.fired| && k < |plan(s'.fired[p].id)|
    ensures p < |s'.firedAt| && m < |s'.scheduled|
    ensures s'.scheduled[m] == Event(s'.firedAt[p] + plan(s'.fired[p].id)[k], m)
  {
    hide MadeByAll;
    var fired := s'.fired[|s.fired|..];
    MadeAt(plan, fired, s'.now, |s.scheduled|, p - |s.fired|, k);
    m := |s.scheduled| + Offset(plan, fired, p - |s.fired|) + k;
  }
}
