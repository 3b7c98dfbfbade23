/** What locks and condition variables are for, in terms of threads alone: who is inside the monitor, who stands in
    line for it, who waits on the condition, in which order, and who has been signalled.  Every step of the code is
    one step of this. */
module Mesa {
  import opened Common
  import opened Monitor

  /** `Sweeping`: inside, in Broadcast; `Leaving`: inside, with its place in the queue of waiters. */
  datatype Phase = Out | Entering | Inside | Sweeping | Leaving | Asleep

  /** `line`: the threads that sleep until the lock is free; `waiters`: those waiting on the condition; `hand`: the
      waiter that is about to be woken; `signalled`: those woken that have yet to notice; `dozing`: those that really
      sleep; `inWait`: those that have a semaphore of their own. */
  datatype Spec = Spec(
    phase: map<Tid, Phase>, holder: Option<Tid>, line: seq<Tid>,
    waiters: seq<Tid>, hand: Option<Tid>, signalled: set<Tid>, dozing: set<Tid>, inWait: set<Tid>)

  predicate Within(p: Phase) {
    p == Inside || p == Sweeping || p == Leaving
  }

  ghost predicate Busy(a: Spec) {
    exists t :: t in a.phase && Within(a.phase[t])
  }

  function Tail<T>(s: seq<T>): seq<T> {
    if s == [] then [] else s[1..]
  }

  ghost predicate SpecStep(a: Spec, t: Tid, action: Action, a': Spec) {
    t in a.phase &&
    match action
    case Enter => a' == a.(phase := a.phase[t := Entering])
    case LockP =>
      a' == if Busy(a) then a.(line := a.line + [t]) else a.(phase := a.phase[t := Inside])
    case SetHolder => a' == a.(holder := Some(t))
    case Delete => a' == a.(inWait := a.inWait - {t})
    case Wait =>
      a.holder == Some(t) &&
      a' == a.(phase := a.phase[t := Leaving], waiters := a.waiters + [t], inWait := a.inWait + {t})
    case Release => a.holder == Some(t) && a' == a.(holder := None)
    case LockV => a' == a.(phase := a.phase[t := if a.phase[t] == Leaving then Asleep else Out], line := Tail(a.line))
    case WaitP =>
      a' == if t in a.signalled then a.(phase := a.phase[t := Entering], signalled := a.signalled - {t})
            else a.(dozing := a.dozing + {t})
    case Signal =>
      a' == if a.waiters == [] then a.(phase := a.phase[t := Inside])
            else a.(waiters := a.waiters[1..], hand := Some(a.waiters[0]))
    case Broadcast => a' == a.(phase := a.phase[t := Sweeping])
    case SignalV =>
      && a.hand.Some?
      && a' == a.(hand := None, signalled := a.signalled + {a.hand.value}, dozing := a.dozing - {a.hand.value})
  }

  // ----- The code, seen as this -----

  function PhaseOf(pc: Pc): Phase {
    match pc
    case Outside => Out
    case Acquiring(_) => Entering
    case Broadcasting => Sweeping
    case Signalling(_, all) => if all then Sweeping else Inside
    case Enqueued(_) => Leaving
    case Releasing(w) => if w.Some? then Leaving else Inside
    case Waiting(_) => Asleep
    case _ => Inside
  }

  function Phases(pc: map<Tid, Pc>): map<Tid, Phase> {
    map t | t in pc :: PhaseOf(pc[t])
  }

  function OwnerOf(c: Cond, w: Wid): Tid {
    if w in c.owner then c.owner[w] else 0
  }

  function WaitLine(c: Cond): (ts: seq<Tid>)
    ensures |ts| == |c.waitQueue|
  {
    seq(|c.waitQueue|, i requires 0 <= i < |c.waitQueue| => OwnerOf(c, c.waitQueue[i]))
  }

  /** The semaphore of a thread inside Wait. */
  function Own(c: Cond, pc: Pc): Option<Sem> {
    var w := WaiterOf(pc);
    if w.Some? && w.value in c.sems then Some(c.sems[w.value]) else None
  }

  function Signalled(c: Cond, pc: map<Tid, Pc>): set<Tid> {
    set t | t in pc && Own(c, pc[t]).Some? && Own(c, pc[t]).value.value > 0
  }

  function Dozing(c: Cond, pc: map<Tid, Pc>): set<Tid> {
    set t | t in pc && Own(c, pc[t]).Some? && t in Own(c, pc[t]).value.queue
  }

  function InWait(c: Cond, pc: map<Tid, Pc>): set<Tid> {
    set t | t in pc && Own(c, pc[t]).Some?
  }

  ghost function Abs(m: State): Spec {
    var hand := InHand(m);
    Spec(Phases(m.pc), m.lockHolder, m.lock.queue, WaitLine(m.cond),
         if hand.Some? then Some(OwnerOf(m.cond, hand.value)) else None,
         Signalled(m.cond, m.pc), Dozing(m.cond, m.pc), InWait(m.cond, m.pc))
  }

  lemma MovedPhases(pc: map<Tid, Pc>, t: Tid, to: Pc)
    ensures Phases(pc[t := to]) == Phases(pc)[t := PhaseOf(to)]
  {
  }

  /** Somebody is inside exactly when the lock's semaphore is down. */
  lemma BusyIsLocked(m: State)
    requires Inv(m)
    ensures Busy(Abs(m)) <==> m.lock.value == 0
  {
    hide CondOk, HolderOk, LockQueueOk, WaitLine, Signalled, Dozing, InWait;
    var a := Abs(m);
    forall t | t in m.pc
      ensures Within(a.phase[t]) <==> t in Owners(m)
    {
    }
    if m.lock.value == 0 {
      var t :| t in Owners(m);
      assert Within(a.phase[t]);
    } else {
      assert Owners(m) == {};
    }
  }

  lemma QuietAbs(m: State, m': State, t: Tid)
    requires Quiet(m, m', t)
    ensures Abs(m') == Abs(m).(phase := Phases(m.pc)[t := PhaseOf(m'.pc[t])], holder := m'.lockHolder,
                               line := m'.lock.queue)
  {
    hide WaiterOf, InHand, WaitLine, PhaseOf, BeforeWakeup;
    MovedPhases(m.pc, t, m'.pc[t]);
    forall u | u in m.pc
      ensures Own(m'.cond, m'.pc[u]) == Own(m.cond, m.pc[u])
    {
    }
  }

  lemma QuietIs(m: State, t: Tid, a: Action)
    requires Inv(m) && Enabled(m, t, a)
    requires || a.Enter? || a.LockP? || a.SetHolder? || a.Release? || a.LockV? || a.Broadcast?
             || (a.Signal? && m.cond.waitQueue == [])
    ensures SpecStep(Abs(m), t, a, Abs(Apply(m, t, a)))
  {
    hide Abs, Busy, Quiet, CondOk, Mutex, LockQueueOk;
    QuietActions(m, t, a);
    NoFault(m, t, a);
    QuietAbs(m, Apply(m, t, a), t);
    BusyIsLocked(m);
    AbsParts(m);
    assert Phases(m.pc)[t := PhaseOf(m.pc[t])] == Phases(m.pc);
  }

  lemma AbsParts(m: State)
    ensures Abs(m).phase == Phases(m.pc) && Abs(m).holder == m.lockHolder && Abs(m).line == m.lock.queue
    ensures Abs(m).waiters == WaitLine(m.cond)
  {
  }

  /** The semaphores of the threads after one thread's has changed. */
  lemma OwnMoves(m: State, m': State, t: Tid)
    requires t in m.pc && m'.pc.Keys == m.pc.Keys
    requires forall u :: u in m.pc && u != t ==> Own(m'.cond, m'.pc[u]) == Own(m.cond, m.pc[u])
    ensures var own := Own(m'.cond, m'.pc[t]);
            && Signalled(m'.cond, m'.pc) ==
                 Signalled(m.cond, m.pc) - {t} + (if own.Some? && own.value.value > 0 then {t} else {})
            && Dozing(m'.cond, m'.pc) ==
                 Dozing(m.cond, m.pc) - {t} + (if own.Some? && t in own.value.queue then {t} else {})
            && InWait(m'.cond, m'.pc) == InWait(m.cond, m.pc) - {t} + (if own.Some? then {t} else {})
  {
    hide Own;
  }

  lemma OwnSeen(m: State, t: Tid)
    requires t in m.pc
    ensures var own := Own(m.cond, m.pc[t]);
            && (t in InWait(m.cond, m.pc) <==> own.Some?)
            && (t in Signalled(m.cond, m.pc) <==> own.Some? && own.value.value > 0)
            && (t in Dozing(m.cond, m.pc) <==> own.Some? && t in own.value.queue)
  {
  }

  lemma WaitIs(m: State, t: Tid)
    requires Inv(m) && Enabled(m, t, Wait)
    ensures SpecStep(Abs(m), t, Wait, Abs(Apply(m, t, Wait)))
  {
    hide Mutex, LockQueueOk, HolderOk, WaitersOk;
    NoFault(m, t, Wait);
    PushQueue(m, t);
    NumberedBelow(m);
    var m' := Apply(m, t, Wait);
    assert InHand(m') == InHand(m);
    OwnMoves(m, m', t);
    MovedPhases(m.pc, t, m'.pc[t]);
    assert WaitLine(m'.cond) == WaitLine(m.cond) + [t];
  }

  /** Each step of the code is the specification's step. */
  lemma StepRefines(m: State, t: Tid, a: Action)
    requires Inv(m) && Enabled(m, t, a)
    ensures SpecStep(Abs(m), t, a, Abs(Apply(m, t, a)))
  {
    hide SpecStep, Abs, Apply, Inv;
    if a == Wait {
      WaitIs(m, t);
    } else if a == Delete {
      DeleteIs(m, t);
    } else if a == Signal && m.cond.waitQueue != [] {
      SignalIs(m, t);
    } else if a == SignalV {
      SignalVIs(m, t);
    } else if a == WaitP {
      WaitPIs(m, t);
    } else {
      QuietIs(m, t, a);
    }
  }

  /** The semaphore that is deleted is unused. */
  lemma DeleteOwn(m: State, t: Tid)
    requires Inv(m) && Enabled(m, t, Delete)
    ensures t in m.pc && t !in Signalled(m.cond, m.pc) && t !in Dozing(m.cond, m.pc)
  {
    hide LockOk, QueueOk;
    assert ThreadOk(m, t) && WaiterOk(m, m.pc[t].waiter);
  }

  lemma DeleteIs(m: State, t: Tid)
    requires Inv(m) && Enabled(m, t, Delete)
    ensures SpecStep(Abs(m), t, Delete, Abs(Apply(m, t, Delete)))
  {
    hide LockOk, WaitersOk, QueueOk, InHand, Signalled, Dozing, InWait;
    NoFault(m, t, Delete);
    DeleteHand(m, t);
    DeleteOwn(m, t);
    var m' := Apply(m, t, Delete);
    forall u | u in m.pc && u != t
      ensures Own(m'.cond, m'.pc[u]) == Own(m.cond, m.pc[u])
    {
      assert ThreadOk(m, u);
    }
    OwnMoves(m, m', t);
    MovedPhases(m.pc, t, m'.pc[t]);
    assert WaitLine(m'.cond) == WaitLine(m.cond);
  }

  lemma SignalHand(m: State, t: Tid)
    requires Inv(m) && Enabled(m, t, Signal) && m.cond.waitQueue != []
    ensures InHand(Apply(m, t, Signal)) == Some(m.cond.waitQueue[0])
  {
    NoFault(m, t, Signal);
  }

  lemma SignalIs(m: State, t: Tid)
    requires Inv(m) && Enabled(m, t, Signal) && m.cond.waitQueue != []
    ensures SpecStep(Abs(m), t, Signal, Abs(Apply(m, t, Signal)))
  {
    hide LockOk, CondOk, InHand, NoDuplicates, Signalled, Dozing, InWait;
    NoFault(m, t, Signal);
    var m' := Apply(m, t, Signal);
    SignalHand(m, t);
    OwnSeen(m, t);
    OwnMoves(m, m', t);
    MovedPhases(m.pc, t, m'.pc[t]);
    assert Phases(m'.pc) == Phases(m.pc);
    assert WaitLine(m'.cond) == WaitLine(m.cond)[1..];
  }

  /** The semaphore in hand belongs to another thread, which has not been woken and sleeps at most alone. */
  lemma HandOwner(m: State, t: Tid)
    requires Inv(m) && Enabled(m, t, SignalV)
    ensures var w, m' := m.pc[t].waiter, Apply(m, t, SignalV);
            && InHand(m) == Some(w) && InHand(m').None?
            && w in m.cond.sems && w in m.cond.owner && m.cond.owner[w] in m.pc && m.cond.owner[w] != t
            && WaiterOf(m.pc[m.cond.owner[w]]) == Some(w)
            && m.cond.sems[w].value == 0 && (m.cond.sems[w].queue == [] || m.cond.sems[w].queue == [m.cond.owner[w]])
            && m'.cond == WakeUp(m.cond, w) && m'.lockHolder == m.lockHolder
  {
    hide Mutex, LockQueueOk, NoDuplicates, QueueOk;
    HandEmptied(m, t);
  }

  lemma SignalVIs(m: State, t: Tid)
    requires Inv(m) && Enabled(m, t, SignalV)
    ensures SpecStep(Abs(m), t, SignalV, Abs(Apply(m, t, SignalV)))
  {
    hide LockOk, WaitersOk, QueueOk, InHand, Signalled, Dozing, InWait;
    HandOwner(m, t);
    var m' := Apply(m, t, SignalV);
    var u := m.cond.owner[m.pc[t].waiter];
    OthersOwn(m, m', m.pc[t].waiter);
    OwnMoves(m, m', u);
    OwnSeen(m, u);
    MovedPhases(m.pc, t, m'.pc[t]);
    assert Phases(m'.pc) == Phases(m.pc);
    assert WaitLine(m'.cond) == WaitLine(m.cond);
  }

  /** A change to one live semaphore concerns its owner only. */
  lemma OthersOwn(m: State, m': State, w: Wid)
    requires ThreadsOk(m) && w in m.cond.sems && w in m.cond.owner
    requires m'.pc.Keys == m.pc.Keys
    requires forall u :: u in m.pc && u != m.cond.owner[w] ==> WaiterOf(m'.pc[u]) == WaiterOf(m.pc[u])
    requires w in m'.cond.sems && m'.cond.sems == m.cond.sems[w := m'.cond.sems[w]]
    ensures forall u :: u in m.pc && u != m.cond.owner[w] ==> Own(m'.cond, m'.pc[u]) == Own(m.cond, m.pc[u])
  {
    forall u | u in m.pc && u != m.cond.owner[w]
      ensures Own(m'.cond, m'.pc[u]) == Own(m.cond, m.pc[u])
    {
      assert ThreadOk(m, u);
    }
  }

  lemma OwnWaiter(m: State, t: Tid)
    requires Inv(m) && t in m.pc && m.pc[t].Waiting?
    ensures var w := m.pc[t].waiter;
            w in m.cond.sems && w in m.cond.owner && m.cond.owner[w] == t && m.cond.sems[w].value <= 1
  {
    assert ThreadOk(m, t) && WaiterOk(m, m.pc[t].waiter);
  }

  /** What the P on the waiter semaphore does to the semaphores of all threads. */
  lemma WaitPOwn(m: State, t: Tid)
    requires Inv(m) && Enabled(m, t, WaitP)
    ensures var m', signalled := Apply(m, t, WaitP), t in Signalled(m.cond, m.pc);
            && Signalled(m'.cond, m'.pc) == Signalled(m.cond, m.pc) - {t}
            && Dozing(m'.cond, m'.pc) == Dozing(m.cond, m.pc) + (if signalled then {} else {t})
            && InWait(m'.cond, m'.pc) == InWait(m.cond, m.pc)
            && m'.pc == (if signalled then m.pc[t := Acquiring(Some(m.pc[t].waiter))] else m.pc)
            && m'.lock == m.lock && m'.lockHolder == m.lockHolder && m'.cond == m.cond.(sems := m'.cond.sems)
  {
    hide LockOk, WaitersOk, QueueOk, Signalled, Dozing, InWait;
    OwnWaiter(m, t);
    var m' := Apply(m, t, WaitP);
    OthersOwn(m, m', m.pc[t].waiter);
    OwnMoves(m, m', t);
    OwnSeen(m, t);
  }

  lemma WaitPIs(m: State, t: Tid)
    requires Inv(m) && Enabled(m, t, WaitP)
    ensures SpecStep(Abs(m), t, WaitP, Abs(Apply(m, t, WaitP)))
  {
    hide Inv, Apply, InHand, Signalled, Dozing, InWait, Own;
    WaitPHand(m, t);
    WaitPOwn(m, t);
    MovedPhases(m.pc, t, Acquiring(Some(m.pc[t].waiter)));
    var m' := Apply(m, t, WaitP);
    assert WaitLine(m'.cond) == WaitLine(m.cond);
    assert t in Signalled(m.cond, m.pc) || Signalled(m.cond, m.pc) - {t} == Signalled(m.cond, m.pc);
  }

  /** Every run of the code is a run of the specification, in which at first all threads are outside. */
  lemma RunRefines(ms: seq<State>, moves: seq<Move>)
    requires Trace(ms, moves)
    ensures var a := Abs(ms[0]);
            a == Spec(a.phase, None, [], [], None, {}, {}, {}) && forall t :: t in a.phase ==> a.phase[t] == Out
    ensures forall i :: 0 <= i < |moves| ==> SpecStep(Abs(ms[i]), moves[i].t, moves[i].a, Abs(ms[i + 1]))
  {
    hide Inv, Apply, Enabled, SpecStep;
    var threads :| ms[0] == Init(threads);
    assert Abs(ms[0]) == Spec(Abs(ms[0]).phase, None, [], [], None, {}, {}, {});
    hide Abs;
    forall i | 0 <= i < |moves|
      ensures SpecStep(Abs(ms[i]), moves[i].t, moves[i].a, Abs(ms[i + 1]))
    {
      TraceOk(ms, moves, i);
      StepRefines(ms[i], moves[i].t, moves[i].a);
    }
  }

  /** A thread can go on exactly when it sleeps neither for the lock nor for its own signal; one that holds the lock
      may do anything. */
  lemma CanGoOn(m: State, t: Tid)
    requires Inv(m) && t in m.pc
    ensures (exists a :: Enabled(m, t, a)) <==> t !in Abs(m).line && t !in Abs(m).dozing
    ensures m.pc[t].Holding? ==>
              Enabled(m, t, Wait) && Enabled(m, t, Signal) && Enabled(m, t, Broadcast) && Enabled(m, t, Release)
  {
    hide Mutex, HolderOk, QueueOk;
    assert ThreadOk(m, t);
    assert WaiterOf(m.pc[t]).Some? ==> WaiterOk(m, WaiterOf(m.pc[t]).value);
    match m.pc[t]
    case Outside => assert Enabled(m, t, Enter);
    case Acquiring(_) => assert t in m.lock.queue || Enabled(m, t, LockP);
    case Acquired(_) => assert Enabled(m, t, SetHolder);
    case Deleting(_) => assert Enabled(m, t, Delete);
    case Holding => assert Enabled(m, t, Wait);
    case Broadcasting => assert Enabled(m, t, Signal);
    case Signalling(_, _) => assert Enabled(m, t, SignalV);
    case Enqueued(_) => assert Enabled(m, t, Release);
    case Releasing(_) => assert Enabled(m, t, LockV);
    case Waiting(_) => assert t in Abs(m).dozing || Enabled(m, t, WaitP);
  }
}
