/** The thread kernel: code/threads/scheduler.cc, thread.cc and the semaphores of synch.cc, as a
    machine whose steps are the sections that run with interrupts off. Time slices and interrupt
    handlers come in only between those sections. */
module Kernel {
  import opened Common

  type Tid = nat
  type Sid = nat

  /** What a thread is doing. `InP(s)` is inside the loop of Semaphore::P on `s`. */
  datatype Pc = Created | Forked | Free | InP(sem: Sid) | Finishing

  datatype Sem = Sem(value: nat, queue: seq<Tid>)

  /** `idle`: the current thread is in the loop of Thread::Sleep, with no thread to switch to.
      `resuming`: the current thread has just been switched to and has yet to call CheckToBeDestroyed.
      `fault`: an ASSERT failed. */
  datatype State = State(
    current: Tid, idle: bool, resuming: bool,
    ready: seq<Tid>, toBeDestroyed: Option<Tid>,
    sems: map<Sid, Sem>, pc: map<Tid, Pc>, used: set<Tid>, fault: bool)

  function Init(main: Tid): State {
    State(main, false, false, [], None, map[], map[main := Free], {main}, false)
  }

  /** Scheduler::ReadyToRun; List::Append asserts that the thread is not on the list. */
  function ReadyToRun(k: State, t: Tid): State {
    k.(ready := k.ready + [t], fault := k.fault || t in k.ready)
  }

  /** FindNextToRun and Scheduler::Run, up to the switch of stacks. */
  function Dispatch(k: State, finishing: bool): State
    requires k.ready != []
  {
    k.(ready := k.ready[1..],
       toBeDestroyed := if finishing then Some(k.current) else k.toBeDestroyed,
       fault := k.fault || (finishing && k.toBeDestroyed.Some?),
       current := k.ready[0], idle := false, resuming := true)
  }

  /** Thread::Sleep. */
  function Sleep(k: State, finishing: bool): State {
    if k.ready == [] then k.(idle := true) else Dispatch(k, finishing)
  }

  /** One turn of the loop in Semaphore::P by the current thread. */
  function TryP(k: State, s: Sid): State
    requires s in k.sems
  {
    var m := k.sems[s];
    if m.value == 0 then
      Sleep(k.(sems := k.sems[s := m.(queue := m.queue + [k.current])],
               pc := k.pc[k.current := InP(s)],
               fault := k.fault || k.current in m.queue), false)
    else
      k.(sems := k.sems[s := m.(value := m.value - 1)], pc := k.pc[k.current := Free])
  }

  /** Semaphore::V, by a thread or by an interrupt handler. */
  function DoV(k: State, s: Sid): State
    requires s in k.sems
  {
    var m := k.sems[s];
    var k1 := if m.queue == [] then k else ReadyToRun(k, m.queue[0]);
    var rest := if m.queue == [] then [] else m.queue[1..];
    k1.(sems := k.sems[s := Sem(m.value + 1, rest)])
  }

  /** CheckToBeDestroyed; ~Thread asserts that the thread is not the current one. */
  function CheckToBeDestroyed(k: State): State {
    if k.toBeDestroyed.None? then k
    else k.(toBeDestroyed := None, pc := k.pc - {k.toBeDestroyed.value},
            fault := k.fault || k.toBeDestroyed.value == k.current)
  }

  /** A thread that is dispatched for the first time is in Begin, and then runs freely. */
  function Resumed(k: State): State {
    if k.current in k.pc && k.pc[k.current].Forked? then k.(pc := k.pc[k.current := Free], resuming := false)
    else k.(resuming := false)
  }

  datatype Step =
    | NewThread(t: Tid) | NewSemaphore(s: Sid, initial: nat)
    | Fork(t: Tid) | Yield | P(s: Sid) | Retry | V(s: Sid) | Finish
    | Interrupt(s: Sid) | Wake | Resume

  /** The current thread is executing, with interrupts on. */
  predicate Running(k: State) {
    !k.idle && !k.resuming && k.current in k.pc && k.pc[k.current].Free?
  }

  predicate Enabled(k: State, step: Step) {
    match step
    case NewThread(t) => Running(k) && t !in k.used
    case NewSemaphore(s, _) => Running(k) && s !in k.sems
    case Fork(t) => Running(k) && t in k.pc && k.pc[t].Created?
    case Yield => Running(k)
    case P(s) => Running(k) && s in k.sems
    case Retry => !k.idle && !k.resuming && k.current in k.pc && k.pc[k.current].InP? && k.pc[k.current].sem in k.sems
    case V(s) => Running(k) && s in k.sems
    case Finish => Running(k)
    case Interrupt(s) => (Running(k) || k.idle) && s in k.sems
    case Wake => k.idle && k.ready != [] && k.current in k.pc
    case Resume => k.resuming && k.current in k.pc
  }

  function Apply(k: State, step: Step): State
    requires Enabled(k, step)
  {
    match step
    case NewThread(t) => k.(pc := k.pc[t := Created], used := k.used + {t})
    case NewSemaphore(s, initial) => k.(sems := k.sems[s := Sem(initial, [])])
    case Fork(t) => ReadyToRun(k.(pc := k.pc[t := Forked]), t)
    case Yield =>
      if k.ready == [] then k
      else
        // FindNextToRun comes first, then ReadyToRun(this), then Run.
        var next := k.ready[0];
        var k1 := ReadyToRun(k.(ready := k.ready[1..]), k.current);
        k1.(current := next, resuming := true)
    case P(s) => TryP(k, s)
    case Retry => TryP(k, k.pc[k.current].sem)
    case V(s) => DoV(k, s)
    case Finish => Sleep(k.(pc := k.pc[k.current := Finishing]), true)
    case Interrupt(s) => DoV(k, s)
    case Wake => Dispatch(k, k.pc[k.current].Finishing?)
    case Resume =>
      Resumed(CheckToBeDestroyed(k))
  }

  // ----- The invariant -----

  ghost predicate Queued(k: State, t: Tid) {
    t in k.pc && k.pc[t].InP? && k.pc[t].sem in k.sems && t in k.sems[k.pc[t].sem].queue
  }

  ghost predicate IsRunning(k: State, t: Tid) {
    t == k.current && !k.idle
  }

  /** A finished thread is waiting to be switched away from, or to be deleted. */
  ghost predicate Dying(k: State, t: Tid) {
    t in k.pc && k.pc[t].Finishing?
  }

  ghost predicate JustCreated(k: State, t: Tid) {
    t in k.pc && k.pc[t].Created?
  }

  function One(b: bool): nat {
    if b then 1 else 0
  }

  /** In how many of its possible places a thread is. */
  ghost function Places(k: State, t: Tid): nat {
    One(IsRunning(k, t)) + One(t in k.ready) + One(Queued(k, t)) + One(JustCreated(k, t)) + One(Dying(k, t))
  }

  /** Where a thread is follows from what it is doing. */
  ghost predicate Placed(k: State, t: Tid)
    requires t in k.pc
  {
    match k.pc[t]
    case Created => t !in k.ready && !IsRunning(k, t)
    case Finishing => t !in k.ready && !IsRunning(k, t)
    case Forked => t in k.ready <==> !IsRunning(k, t)
    case Free => t in k.ready <==> !IsRunning(k, t)
    case InP(s) =>
      && s in k.sems
      && if t in k.sems[s].queue then t !in k.ready && !IsRunning(k, t) else t in k.ready <==> !IsRunning(k, t)
  }

  ghost predicate QueuesOk(k: State) {
    forall s :: s in k.sems ==>
      && NoDuplicates(k.sems[s].queue)
      && (forall t :: t in k.sems[s].queue ==> t in k.pc && k.pc[t] == InP(s))
  }

  ghost predicate PlacesOk(k: State) {
    && NoDuplicates(k.ready)
    && (forall t :: t in k.ready ==> t in k.pc)
    && k.current in k.pc
    && k.pc.Keys <= k.used
    && (forall t :: t in k.pc ==> Placed(k, t))
  }

  ghost predicate DyingOk(k: State) {
    && (forall t :: Dying(k, t) ==> if k.toBeDestroyed == Some(t) then k.current != t else k.idle && k.current == t)
    && (k.toBeDestroyed.Some? ==> k.resuming && Dying(k, k.toBeDestroyed.value))
    && (k.resuming ==> !k.idle)
    && (forall t :: t in k.pc && k.pc[t].Forked? ==> t in k.ready || (k.resuming && k.current == t))
    && (k.idle && k.current in k.pc ==> k.pc[k.current].InP? || k.pc[k.current].Finishing?)
  }

  /** The threads woken from `s` that have not tested it again. */
  ghost function Retriers(k: State, s: Sid): set<Tid>
    requires s in k.sems
  {
    set t | t in k.pc && k.pc[t] == InP(s) && t !in k.sems[s].queue
  }

  ghost predicate SemOk(k: State, s: Sid)
    requires s in k.sems
  {
    var m := k.sems[s];
    m.queue != [] ==> m.value <= |Retriers(k, s)|
  }

  ghost predicate Inv(k: State) {
    && !k.fault
    && QueuesOk(k) && PlacesOk(k) && DyingOk(k)
    && SemsOk(k)
  }

  lemma InitOk(main: Tid)
    ensures Inv(Init(main))
  {
  }

  // ----- Semaphores -----

  ghost predicate SemsOk(k: State) {
    forall s :: s in k.sems ==> SemOk(k, s)
  }

  /** Steps that touch no semaphore, and no thread inside P, keep the semaphores' part of the invariant. */
  lemma SameSems(k: State, k': State)
    requires SemsOk(k) && k'.sems == k.sems
    requires forall t, s :: (t in k'.pc && k'.pc[t] == InP(s)) <==> (t in k.pc && k.pc[t] == InP(s))
    ensures SemsOk(k')
  {
    forall s | s in k'.sems
      ensures SemOk(k', s)
    {
      assert SemOk(k, s);
      assert Retriers(k', s) == Retriers(k, s);
    }
  }

  // ----- Lists without repetition -----

  lemma TailOf(s: seq<Tid>)
    requires NoDuplicates(s) && s != []
    ensures NoDuplicates(s[1..]) && forall x :: x in s[1..] <==> x in s && x != s[0]
  {
  }

  lemma Appended(s: seq<Tid>, x: Tid)
    requires NoDuplicates(s) && x !in s
    ensures NoDuplicates(s + [x]) && forall y :: y in s + [x] <==> y in s || y == x
  {
  }

  // ----- Each step keeps the invariant -----

  lemma NewThreadOk(k: State, t: Tid)
    requires Inv(k) && Enabled(k, NewThread(t))
    ensures Inv(Apply(k, NewThread(t)))
  {
    hide SemOk, NoDuplicates;
    assert t !in k.pc;
    SameSems(k, Apply(k, NewThread(t)));
  }

  lemma NewSemaphoreOk(k: State, s: Sid, initial: nat)
    requires Inv(k) && Enabled(k, NewSemaphore(s, initial))
    ensures Inv(Apply(k, NewSemaphore(s, initial)))
  {
  }

  lemma ForkOk(k: State, t: Tid)
    requires Inv(k) && Enabled(k, Fork(t))
    ensures Inv(Apply(k, Fork(t)))
  {
    hide SemOk, NoDuplicates;
    assert Placed(k, t);
    Appended(k.ready, t);
    SameSems(k, Apply(k, Fork(t)));
  }

  lemma YieldOk(k: State)
    requires Inv(k) && Enabled(k, Yield)
    ensures Inv(Apply(k, Yield))
  {
    hide SemOk, NoDuplicates;
    if k.ready != [] {
      assert Placed(k, k.current) && Placed(k, k.ready[0]);
      TailOf(k.ready);
      Appended(k.ready[1..], k.current);
      SameSems(k, Apply(k, Yield));
    }
  }

  /** The thread to be destroyed is gone from the books, and it was not the running one. */
  lemma DestroyOk(k: State)
    requires Inv(k) && k.resuming
    ensures Inv(CheckToBeDestroyed(k)) && CheckToBeDestroyed(k).toBeDestroyed.None?
  {
    hide SemOk, NoDuplicates;
    SameSems(k, CheckToBeDestroyed(k));
  }

  lemma ResumedOk(k: State)
    requires Inv(k) && k.resuming && k.toBeDestroyed.None?
    ensures Inv(Resumed(k))
  {
    hide SemOk, NoDuplicates;
    SameSems(k, Resumed(k));
    assert Placed(k, k.current);
  }

  lemma ResumeOk(k: State)
    requires Inv(k) && Enabled(k, Resume)
    ensures Inv(Apply(k, Resume))
  {
    hide SemOk, NoDuplicates, QueuesOk, PlacesOk;
    DestroyOk(k);
    ResumedOk(CheckToBeDestroyed(k));
  }

  /** The thread that V wakes is then one of those still to retry. */
  lemma VOk(k: State, s: Sid)
    requires Inv(k) && s in k.sems && (Running(k) || k.idle)
    ensures Inv(DoV(k, s))
  {
    hide SemOk, NoDuplicates;
    VSems(k, s);
    VPlaces(k, s);
    hide PlacesOk, QueuesOk;
  }

  lemma VPlaces(k: State, s: Sid)
    requires Inv(k) && s in k.sems
    ensures QueuesOk(DoV(k, s)) && PlacesOk(DoV(k, s)) && !DoV(k, s).fault
  {
    hide SemOk, NoDuplicates, DyingOk, Placed;
    var q := k.sems[s].queue;
    forall t | t in k.pc
      ensures Placed(DoV(k, s), t)
    {
      VPlaced(k, s, t);
    }
    if q != [] {
      assert q[0] in q;
      TailOf(q);
      WaiterNotReady(k, s);
      Appended(k.ready, q[0]);
    }
  }

  lemma WaiterNotReady(k: State, s: Sid)
    requires Inv(k) && s in k.sems && k.sems[s].queue != []
    ensures k.sems[s].queue[0] in k.pc && k.sems[s].queue[0] !in k.ready
  {
  }

  lemma VPlaced(k: State, s: Sid, t: Tid)
    requires Inv(k) && s in k.sems && t in k.pc
    ensures Placed(DoV(k, s), t)
  {
  }

  lemma VSems(k: State, s: Sid)
    requires Inv(k) && s in k.sems
    ensures SemsOk(DoV(k, s))
  {
    hide NoDuplicates, DyingOk, PlacesOk;
    var k' := DoV(k, s);
    var q := k.sems[s].queue;
    if q != [] {
      assert q[0] in q;
      TailOf(q);
    }
    forall o | o in k'.sems
      ensures SemOk(k', o)
    {
      assert SemOk(k, o);
      if o == s && q != [] {
        assert Retriers(k', s) == Retriers(k, s) + {q[0]};
      } else {
        assert Retriers(k', o) == Retriers(k, o);
      }
    }
  }

  /** Switching to the thread at the front of the ready list. */
  lemma WakeOk(k: State)
    requires Inv(k) && k.idle && k.ready != []
    ensures Inv(Dispatch(k, k.pc[k.current].Finishing?))
  {
    hide SemOk, NoDuplicates;
    assert k.ready[0] in k.ready;
    assert Placed(k, k.ready[0]) && Placed(k, k.current);
    TailOf(k.ready);
    SameSems(k, Dispatch(k, k.pc[k.current].Finishing?));
  }

  lemma FinishOk(k: State)
    requires Inv(k) && Enabled(k, Finish)
    ensures Inv(Apply(k, Finish))
  {
    hide SemOk, NoDuplicates;
    var k1 := k.(pc := k.pc[k.current := Finishing], idle := true);
    assert Inv(k1) by {
      SameSems(k, k1);
    }
    if k.ready != [] {
      WakeOk(k1);
      assert Apply(k, Finish) == Dispatch(k1, true);
    }
  }

  /** The state of a thread that has queued itself and is about to sleep. */
  function Blocked(k: State, s: Sid): State
    requires s in k.sems
  {
    var m := k.sems[s];
    k.(sems := k.sems[s := m.(queue := m.queue + [k.current])], pc := k.pc[k.current := InP(s)], idle := true,
       fault := k.fault || k.current in m.queue)
  }

  lemma BlockOk(k: State, s: Sid)
    requires Inv(k) && s in k.sems && k.sems[s].value == 0
    requires !k.idle && !k.resuming && (k.pc[k.current] == Free || k.pc[k.current] == InP(s))
    ensures Inv(Blocked(k, s))
  {
    hide SemOk, NoDuplicates;
    var q := k.sems[s].queue;
    assert Placed(k, k.current);
    Appended(q, k.current);
    BlockSems(k, s);
  }

  lemma BlockSems(k: State, s: Sid)
    requires SemsOk(k) && s in k.sems && k.sems[s].value == 0 && k.current in k.pc
    requires k.pc[k.current] == Free || k.pc[k.current] == InP(s)
    ensures SemsOk(Blocked(k, s))
  {
    var k' := Blocked(k, s);
    forall o | o in k'.sems
      ensures SemOk(k', o)
    {
      assert SemOk(k, o);
      if o != s {
        assert Retriers(k', o) == Retriers(k, o);
      }
    }
  }

  /** P succeeds: one unit of the value is consumed, by a retrier or by a thread that barges in. */
  lemma TakeSems(k: State, s: Sid)
    requires SemsOk(k) && s in k.sems && k.sems[s].value > 0 && k.current in k.pc
    requires k.pc[k.current] == Free || k.pc[k.current] == InP(s)
    requires k.current !in k.sems[s].queue
    ensures SemsOk(TryP(k, s))
  {
    var k' := TryP(k, s);
    forall o | o in k'.sems
      ensures SemOk(k', o)
    {
      assert SemOk(k, o);
      assert Retriers(k', o) == Retriers(k, o) - if o == s then {k.current} else {};
      assert |Retriers(k, o)| <= |Retriers(k', o)| + 1;
    }
  }

  lemma TryPOk(k: State, s: Sid)
    requires Inv(k) && s in k.sems
    requires !k.idle && !k.resuming && (k.pc[k.current] == Free || k.pc[k.current] == InP(s))
    ensures Inv(TryP(k, s))
  {
    hide SemOk, NoDuplicates;
    assert Placed(k, k.current);
    if k.sems[s].value == 0 {
      BlockOk(k, s);
      if k.ready != [] {
        WakeOk(Blocked(k, s));
        assert TryP(k, s) == Dispatch(Blocked(k, s), false);
      }
    } else {
      assert k.current !in k.sems[s].queue;
      TakeSems(k, s);
    }
  }

  lemma StepOk(k: State, step: Step)
    requires Inv(k) && Enabled(k, step)
    ensures Inv(Apply(k, step))
  {
    hide Inv;
    match step
    case NewThread(t) => NewThreadOk(k, t);
    case NewSemaphore(s, initial) => NewSemaphoreOk(k, s, initial);
    case Fork(t) => ForkOk(k, t);
    case Yield => YieldOk(k);
    case P(s) => TryPOk(k, s);
    case Retry => TryPOk(k, k.pc[k.current].sem);
    case V(s) => VOk(k, s);
    case Finish => FinishOk(k);
    case Interrupt(s) => VOk(k, s);
    case Wake => WakeOk(k);
    case Resume => ResumeOk(k);
  }

  // ----- Whole runs -----

  ghost predicate Trace(ks: seq<State>, steps: seq<Step>) {
    && |ks| == |steps| + 1
    && (exists main :: ks[0] == Init(main))
    && forall i :: 0 <= i < |steps| ==> Enabled(ks[i], steps[i]) && ks[i + 1] == Apply(ks[i], steps[i])
  }

  /** In every state of every run the invariant holds; in particular no ASSERT has failed. */
  lemma {:induction false} TraceOk(ks: seq<State>, steps: seq<Step>, n: nat)
    requires Trace(ks, steps) && n <= |steps|
    ensures Inv(ks[n])
  {
    hide Inv, Apply, Enabled;
    if n == 0 {
      var main :| ks[0] == Init(main);
      InitOk(main);
    } else {
      TraceOk(ks, steps, n - 1);
      StepOk(ks[n - 1], steps[n - 1]);
    }
  }

  /** Every live thread is in exactly one place, and there only once. */
  lemma ExactlyOnePlace(k: State, t: Tid)
    requires Inv(k) && t in k.pc
    ensures Places(k, t) == 1
    ensures NoDuplicates(k.ready)
    ensures forall s :: s in k.sems ==> NoDuplicates(k.sems[s].queue) && (t in k.sems[s].queue ==> Queued(k, t))
  {
  }

  /** Whenever a semaphore is positive while threads sleep on it, a woken thread is ready or running and will test it
      again, and there are as many of those as the value says. */
  lemma NoLostWakeup(k: State, s: Sid)
    requires Inv(k) && s in k.sems
    ensures k.sems[s].queue != [] ==> k.sems[s].value <= |Retriers(k, s)|
    ensures k.sems[s].queue != [] && k.sems[s].value > 0 ==>
              exists t :: t in k.pc && k.pc[t] == InP(s) && t !in k.sems[s].queue && (t in k.ready || IsRunning(k, t))
  {
  }
}
