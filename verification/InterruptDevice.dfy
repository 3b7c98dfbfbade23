/** The event loop as the simulator runs it: the clock, the accounts and the pending list are updated in place, a
    delayed load of the machine takes effect before handlers run, and a handler may ask for a context switch. */
module InterruptDevice {
  import opened Machines
  import opened MachineState
  import opened Lists
  import opened Interrupts

  datatype Status = IdleMode | SystemMode | UserMode

  /** One of the events from number `n` on asked for a context switch. */
  ghost predicate Asked(timeSlice: nat -> bool, fired: seq<Event>, n: nat) {
    exists i :: n <= i < |fired| && timeSlice(fired[i].id)
  }

  lemma AskedGrows(timeSlice: nat -> bool, fired: seq<Event>, e: Event, n: nat)
    requires n <= |fired|
    ensures Asked(timeSlice, fired + [e], n) <==> Asked(timeSlice, fired, n) || timeSlice(e.id)
  {
    var more := fired + [e];
    assert more[|fired|] == e;
    if i :| n <= i < |fired| && timeSlice(fired[i].id) {
      assert more[i] == fired[i];
    }
  }

  lemma NoneAsked(timeSlice: nat -> bool, fired: seq<Event>)
    ensures !Asked(timeSlice, fired, |fired|)
  {
  }

  class Interrupt {
    const plan: Plan
    /** Which handlers call YieldOnReturn: those of the timer. */
    const timeSlice: nat -> bool
    const machine: Machine?
    var level: bool
    var pending: seq<Event>
    var inHandler: bool
    var yieldOnReturn: bool
    var status: Status
    var totalTicks: int
    var idleTicks: int
    var systemTicks: int
    var userTicks: int
    var scheduled: seq<Event>
    ghost var fired: seq<Event>
    ghost var firedAt: seq<int>

    ghost predicate Valid()
      reads if machine != null then {machine.registers} else {}
    {
      PlanOk(plan) && (machine != null ==> machine.Valid())
    }

    ghost function View(): State
      reads this
    {
      State(totalTicks, idleTicks, systemTicks, userTicks, pending, scheduled, fired, firedAt)
    }

    constructor (plan: Plan, timeSlice: nat -> bool, machine: Machine?)
      ensures this.plan == plan && this.timeSlice == timeSlice && this.machine == machine
      ensures !level && !inHandler && !yieldOnReturn && status == SystemMode
      ensures View() == State(0, 0, 0, 0, [], [], [], [])
    {
      this.plan, this.timeSlice, this.machine := plan, timeSlice, machine;
      level, pending, inHandler, yieldOnReturn, status := false, [], false, false, SystemMode;
      totalTicks, idleTicks, systemTicks, userTicks, scheduled := 0, 0, 0, 0, [];
      fired, firedAt := [], [];
    }

    method Schedule(fromNow: int)
      requires fromNow > 0
      modifies this`pending, this`scheduled
      ensures View() == Interrupts.Schedule(old(View()), fromNow)
      ensures scheduled == old(scheduled) + [Event(old(totalTicks) + fromNow, |old(scheduled)|)]
      ensures multiset(pending) == multiset(old(pending)) + multiset{Event(old(totalTicks) + fromNow, |old(scheduled)|)}
    {
      var toOccur := Event(totalTicks + fromNow, |scheduled|);
      InsertedBag([], pending, toOccur, Position(pending, toOccur, Compare));
      pending, scheduled := Inserted(pending, toOccur, Compare), scheduled + [toOccur];
      assert [] + pending == pending && [] + old(pending) == old(pending);
    }

    method YieldOnReturn()
      requires inHandler
      modifies this`yieldOnReturn
      ensures yieldOnReturn
    {
      yieldOnReturn := true;
    }

    /** The handler of one event. */
    method CallBack(event: Event)
      requires PlanOk(plan) && inHandler
      modifies this`pending, this`scheduled, this`yieldOnReturn
      ensures View() == ScheduleAll(old(View()), plan(event.id))
      ensures yieldOnReturn == (old(yieldOnReturn) || timeSlice(event.id))
    {
      var delays := plan(event.id);
      for k := 0 to |delays|
        invariant ScheduleAll(View(), delays[k..]) == ScheduleAll(old(View()), delays)
        invariant yieldOnReturn == old(yieldOnReturn)
      {
        assert delays[k..][0] == delays[k] && delays[k..][1..] == delays[k + 1..];
        Schedule(delays[k]);
      }
      if timeSlice(event.id) {
        YieldOnReturn();
      }
    }

    method FireOne()
      requires PlanOk(plan) && inHandler && pending != []
      modifies this`pending, this`scheduled, this`yieldOnReturn, this`fired, this`firedAt
      ensures View() == FireFirst(old(View()), plan)
      ensures fired == old(fired) + [old(pending)[0]]
      ensures yieldOnReturn == (old(yieldOnReturn) || timeSlice(old(pending)[0].id))
    {
      hide ScheduleAll;
      var next := pending[0];
      pending := pending[1..];
      fired, firedAt := fired + [next], firedAt + [totalTicks];
      CallBack(next);
    }

    /** The do-while loop. */
    method FireAll()
      requires PlanOk(plan) && inHandler && pending != [] && pending[0].when <= totalTicks
      modifies this`pending, this`scheduled, this`yieldOnReturn, this`fired, this`firedAt
      ensures View() == FireDue(old(View()), plan) && old(fired) <= fired
      ensures yieldOnReturn == (old(yieldOnReturn) || Asked(timeSlice, fired, |old(fired)|))
    {
      hide FireFirst, Due, Asked;
      FireFirstCounts(View(), plan);
      AskedGrows(timeSlice, fired, pending[0], |fired|);
      NoneAsked(timeSlice, fired);
      FireOne();
      while pending != [] && pending[0].when <= totalTicks
        invariant FireDue(View(), plan) == FireDue(old(View()), plan) && old(fired) <= fired
        invariant yieldOnReturn == (old(yieldOnReturn) || Asked(timeSlice, fired, |old(fired)|))
        decreases Due(pending, totalTicks)
      {
        FireFirstCounts(View(), plan);
        AskedGrows(timeSlice, fired, pending[0], |old(fired)|);
        FireOne();
      }
    }

    method CheckIfDue(advanceClock: bool) returns (any: bool)
      requires Valid() && !level && !inHandler
      modifies this, if machine != null then {machine.registers} else {}
      ensures Valid() && (View(), any) == Interrupts.CheckIfDue(old(View()), plan, advanceClock)
      ensures !level && !inHandler && status == old(status) && old(fired) <= fired
      ensures yieldOnReturn == (old(yieldOnReturn) || Asked(timeSlice, fired, |old(fired)|))
      ensures machine != null ==>
                machine.registers[..] == if any then Machines.DelayedLoad(old(machine.registers[..]), 0, 0)
                                         else old(machine.registers[..])
    {
      hide FireDue, Machines.DelayedLoad;
      if pending == [] {
        return false;
      }
      var next := pending[0];
      if next.when > totalTicks {
        if !advanceClock {
          return false;
        }
        idleTicks := idleTicks + (next.when - totalTicks);
        totalTicks := next.when;
      }
      if machine != null {
        machine.DelayedLoad(0, 0);
      }
      inHandler := true;
      FireAll();
      inHandler := false;
      any := true;
    }

    /** Returns whether the interrupted thread now gives up the processor. */
    method OneTick() returns (switches: bool)
      requires Valid() && level && !inHandler
      modifies this, if machine != null then {machine.registers} else {}
      ensures Valid() && View() == Interrupts.OneTick(old(View()), plan, old(status) == SystemMode)
      ensures level && !inHandler && !yieldOnReturn && status == old(status) && old(fired) <= fired
      ensures switches == (old(yieldOnReturn) || Asked(timeSlice, fired, |old(fired)|))
      ensures machine != null ==>
                machine.registers[..] == if fired == old(fired) then old(machine.registers[..])
                                         else Machines.DelayedLoad(old(machine.registers[..]), 0, 0)
    {
      hide Interrupts.CheckIfDue, Machines.DelayedLoad;
      if status == SystemMode {
        totalTicks := totalTicks + SYSTEM_TICK;
        systemTicks := systemTicks + SYSTEM_TICK;
      } else {
        totalTicks := totalTicks + USER_TICK;
        userTicks := userTicks + USER_TICK;
      }
      level := false;
      ghost var ticked := View();
      var any := CheckIfDue(false);
      FiredIfAny(ticked, plan);
      level := true;
      switches := yieldOnReturn;
      yieldOnReturn := false;
    }

    method SetLevel(now: bool) returns (was: bool, switches: bool)
      requires Valid() && (inHandler ==> !now)
      modifies this, if machine != null then {machine.registers} else {}
      ensures Valid() && was == old(level) && level == now && inHandler == old(inHandler) && status == old(status)
      ensures View() == if now && !was then Interrupts.OneTick(old(View()), plan, old(status) == SystemMode)
                        else old(View())
      ensures switches == (now && !was && (old(yieldOnReturn) || Asked(timeSlice, fired, |old(fired)|)))
    {
      hide Interrupts.OneTick;
      was, switches := level, false;
      level := now;
      if now && !was {
        switches := OneTick();
      }
    }

    /** Returns whether the machine halts because nothing will ever happen again. */
    method Idle() returns (halt: bool)
      requires Valid() && !level && !inHandler
      modifies this, if machine != null then {machine.registers} else {}
      ensures Valid() && View() == Interrupts.Idle(old(View()), plan)
      ensures halt == (old(pending) == []) && (!halt ==> status == SystemMode) && !level && !inHandler
      ensures yieldOnReturn == (old(yieldOnReturn) || Asked(timeSlice, fired, |old(fired)|))
    {
      hide FireDue;
      status := IdleMode;
      var any := CheckIfDue(true);
      if any {
        status := SystemMode;
        return false;
      }
      return true;
    }
  }

  /** CheckIfDue returns true exactly when something fired. */
  lemma FiredIfAny(s: State, plan: Plan)
    requires PlanOk(plan)
    ensures Interrupts.CheckIfDue(s, plan, false).1 == (Interrupts.CheckIfDue(s, plan, false).0.fired != s.fired)
  {
    hide FireFirst;
    if s.pending != [] && s.pending[0].when <= s.now {
      FireGrows(s, plan);
    }
  }

  lemma {:induction false} FireGrows(s: State, plan: Plan)
    requires PlanOk(plan)
    ensures |FireDue(s, plan).fired| >= |s.fired|
    ensures s.pending != [] && s.pending[0].when <= s.now ==> |FireDue(s, plan).fired| > |s.fired|
    decreases Due(s.pending, s.now)
  {
    if s.pending != [] && s.pending[0].when <= s.now {
      FireFirstCounts(s, plan);
      var next := s.pending[0];
      var taken := s.(pending := s.pending[1..], fired := s.fired + [next], firedAt := s.firedAt + [s.now]);
      DueScheduled(taken, plan(next.id));
      FireGrows(FireFirst(s, plan), plan);
    }
  }
}
