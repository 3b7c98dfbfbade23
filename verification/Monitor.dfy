/** Locks and condition variables (code/threads/synch.cc) used by any number of threads that enter,
    wait, signal, broadcast and leave as they please. P and V are the atomic steps; everything else
    may be interleaved with the other threads after every single assignment. */
module Monitor {
  import opened Common

  type Tid = nat
  /** Identity of the semaphore that Condition::Wait allocates. */
  type Wid = nat

  datatype Sem = Sem(value: nat, queue: seq<Tid>)

  /** Where a thread is. The argument is the waiter semaphore of the Wait call it is in, if any. */
  datatype Pc =
    | Outside
    | Acquiring(w: Option<Wid>)          // in the P of Lock::Acquire
    | Acquired(w: Option<Wid>)           // that P is done, lockHolder is not yet set
    | Deleting(waiter: Wid)              // Wait has the lock back and is about to delete its semaphore
    | Holding                            // between Acquire and Release
    | Broadcasting                       // at the test of the loop in Broadcast
    | Signalling(waiter: Wid, all: bool) // took a semaphore off waitQueue and is about to V it
    | Enqueued(waiter: Wid)              // Wait has appended its semaphore and is about to Release
    | Releasing(w: Option<Wid>)          // lockHolder is cleared, the V of Lock::Release is to come
    | Waiting(waiter: Wid)               // in the P on the waiter semaphore

  /** `sems`: the live semaphores, numbered as they are allocated; `owner`: the thread whose Wait allocated each. */
  datatype Cond = Cond(waitQueue: seq<Wid>, sems: map<Wid, Sem>, next: Wid, owner: map<Wid, Tid>)

  /** `fault`: an ASSERT failed or a deleted semaphore was touched. */
  datatype State = State(lock: Sem, lockHolder: Option<Tid>, cond: Cond, pc: map<Tid, Pc>, fault: bool)

  function Init(threads: set<Tid>): State {
    State(Sem(1, []), None, Cond([], map[], 0, map[]), map t | t in threads :: Outside, false)
  }

  function AfterV(m: Sem): Sem {
    Sem(m.value + 1, if m.queue == [] then [] else m.queue[1..])
  }

  function SetSem(c: Cond, w: Wid, sem: Sem): Cond {
    c.(sems := c.sems[w := sem])
  }

  /** `new Semaphore("condition", 0)`, appended to waitQueue. */
  function NewWaiter(c: Cond, t: Tid): Cond {
    c.(sems := c.sems[c.next := Sem(0, [])], waitQueue := c.waitQueue + [c.next], next := c.next + 1,
       owner := c.owner[c.next := t])
  }

  function Pop(c: Cond): Cond
    requires c.waitQueue != []
  {
    c.(waitQueue := c.waitQueue[1..])
  }

  function WakeUp(c: Cond, w: Wid): Cond
    requires w in c.sems
  {
    SetSem(c, w, AfterV(c.sems[w]))
  }

  datatype Action = Enter | LockP | SetHolder | Delete | Wait | Release | LockV | WaitP | Signal | Broadcast | SignalV

  predicate Enabled(m: State, t: Tid, a: Action) {
    t in m.pc &&
    match a
    case Enter => m.pc[t].Outside?
    case LockP => m.pc[t].Acquiring? && t !in m.lock.queue
    case SetHolder => m.pc[t].Acquired?
    case Delete => m.pc[t].Deleting?
    case Wait => m.pc[t].Holding?
    case Release => m.pc[t].Holding? || m.pc[t].Enqueued?
    case LockV => m.pc[t].Releasing?
    case WaitP => m.pc[t].Waiting? && !(m.pc[t].waiter in m.cond.sems && t in m.cond.sems[m.pc[t].waiter].queue)
    case Signal => m.pc[t].Holding? || m.pc[t].Broadcasting?
    case Broadcast => m.pc[t].Holding?
    case SignalV => m.pc[t].Signalling?
  }

  function Goto(m: State, t: Tid, pc: Pc): State {
    m.(pc := m.pc[t := pc])
  }

  function Fault(m: State): State {
    m.(fault := true)
  }

  function Apply(m: State, t: Tid, a: Action): State
    requires Enabled(m, t, a)
  {
    match a
    case Enter => Goto(m, t, Acquiring(None))
    case LockP =>
      if m.lock.value == 0 then m.(lock := Sem(0, m.lock.queue + [t]))
      else Goto(m.(lock := m.lock.(value := m.lock.value - 1)), t, Acquired(m.pc[t].w))
    case SetHolder =>
      Goto(m.(lockHolder := Some(t)), t, if m.pc[t].w.None? then Holding else Deleting(m.pc[t].w.value))
    case Delete =>
      var w := m.pc[t].waiter;
      if w !in m.cond.sems || m.cond.sems[w].queue != [] then Fault(m)
      else Goto(m.(cond := m.cond.(sems := m.cond.sems - {w})), t, Holding)
    case Wait =>
      if m.lockHolder != Some(t) then Fault(m)
      else Goto(m.(cond := NewWaiter(m.cond, t)), t, Enqueued(m.cond.next))
    case Release =>
      if m.lockHolder != Some(t) then Fault(m)
      else Goto(m.(lockHolder := None), t, Releasing(if m.pc[t].Enqueued? then Some(m.pc[t].waiter) else None))
    case LockV =>
      Goto(m.(lock := AfterV(m.lock)), t, if m.pc[t].w.None? then Outside else Waiting(m.pc[t].w.value))
    case WaitP =>
      var w := m.pc[t].waiter;
      if w !in m.cond.sems then Fault(m)
      else if m.cond.sems[w].value == 0 then
        m.(cond := SetSem(m.cond, w, Sem(0, m.cond.sems[w].queue + [t])))
      else
        Goto(m.(cond := SetSem(m.cond, w, m.cond.sems[w].(value := m.cond.sems[w].value - 1))), t, Acquiring(Some(w)))
    case Signal =>
      // Signal asserts that the lock is held before it looks; the loop of Broadcast looks first.
      if m.pc[t].Broadcasting? && m.cond.waitQueue == [] then Goto(m, t, Holding)
      else if m.lockHolder != Some(t) then Fault(m)
      else if m.cond.waitQueue == [] then Goto(m, t, Holding)
      else Goto(m.(cond := Pop(m.cond)), t, Signalling(m.cond.waitQueue[0], m.pc[t].Broadcasting?))
    case Broadcast => Goto(m, t, Broadcasting)
    case SignalV =>
      var w := m.pc[t].waiter;
      if w !in m.cond.sems then Fault(m)
      else Goto(m.(cond := WakeUp(m.cond, w)), t, if m.pc[t].all then Broadcasting else Holding)
  }

  // ----- The invariant -----

  /** Between completing the P of Acquire and starting the V of Release. */
  predicate Owns(pc: Pc) {
    pc.Acquired? || HasHolder(pc) || pc.Releasing?
  }

  /** Between the assignment to lockHolder in Acquire and that in Release. */
  predicate HasHolder(pc: Pc) {
    pc.Deleting? || pc.Holding? || pc.Broadcasting? || pc.Signalling? || pc.Enqueued?
  }

  /** The waiter semaphore that a thread inside Wait has allocated and not yet deleted. */
  function WaiterOf(pc: Pc): Option<Wid> {
    match pc
    case Acquiring(w) => w
    case Acquired(w) => w
    case Deleting(w) => Some(w)
    case Enqueued(w) => Some(w)
    case Releasing(w) => w
    case Waiting(w) => Some(w)
    case _ => None
  }

  /** The P on the waiter semaphore is still to be completed. */
  predicate BeforeWakeup(pc: Pc) {
    pc.Enqueued? || pc.Releasing? || pc.Waiting?
  }

  ghost function Owners(m: State): set<Tid> {
    set t | t in m.pc && Owns(m.pc[t])
  }

  /** The value of the lock's semaphore is one or there is exactly one owner. */
  ghost predicate Mutex(m: State) {
    m.lock.value + |Owners(m)| == 1
  }

  ghost predicate HolderOk(m: State) {
    && (forall t :: m.lockHolder == Some(t) ==> t in m.pc && HasHolder(m.pc[t]))
    && (forall t :: t in m.pc && HasHolder(m.pc[t]) ==> m.lockHolder == Some(t))
  }

  /** The threads in Acquire that are not asleep: they will test the semaphore. */
  ghost function Testers(m: State): set<Tid> {
    set t | t in m.pc && m.pc[t].Acquiring? && t !in m.lock.queue
  }

  /** Nobody sleeps on a free lock unless somebody else is about to test it. */
  ghost predicate LockQueueOk(m: State) {
    && NoDuplicates(m.lock.queue)
    && (forall t :: t in m.lock.queue ==> t in m.pc && m.pc[t].Acquiring?)
    && (m.lock.queue != [] && m.lock.value > 0 ==> Testers(m) != {})
  }

  ghost predicate LockOk(m: State) {
    Mutex(m) && HolderOk(m) && LockQueueOk(m)
  }

  /** The semaphore that the lock's holder has taken off the queue and not yet V-ed. */
  ghost function InHand(m: State): Option<Wid> {
    if m.lockHolder.Some? && m.lockHolder.value in m.pc && m.pc[m.lockHolder.value].Signalling?
    then Some(m.pc[m.lockHolder.value].waiter) else None
  }

  /** Not yet signalled. */
  ghost predicate Pending(m: State, w: Wid) {
    w in m.cond.waitQueue || InHand(m) == Some(w)
  }

  /** A thread inside Wait has its own semaphore, and it is alive. */
  ghost predicate ThreadOk(m: State, t: Tid)
    requires t in m.pc
  {
    var w := WaiterOf(m.pc[t]);
    w.Some? ==> w.value in m.cond.sems && w.value in m.cond.owner && m.cond.owner[w.value] == t
  }

  /** A live waiter semaphore: its owner is inside Wait, nobody else sleeps on it, and its value tells how
      far the wake-up has got: 0 while pending, 1 when signalled, 0 again when the owner has consumed it. */
  ghost predicate WaiterOk(m: State, w: Wid)
    requires w in m.cond.sems
  {
    && w < m.cond.next && w in m.cond.owner && m.cond.owner[w] in m.pc
    && (var pc := m.pc[m.cond.owner[w]];
        && WaiterOf(pc) == Some(w)
        && (m.cond.sems[w].queue == [] || (m.cond.sems[w].queue == [m.cond.owner[w]] && pc.Waiting? && Pending(m, w)))
        && m.cond.sems[w].value == (if BeforeWakeup(pc) && !Pending(m, w) then 1 else 0)
        && (Pending(m, w) ==> BeforeWakeup(pc)))
  }

  ghost predicate QueueOk(m: State) {
    && NoDuplicates(m.cond.waitQueue)
    && (forall w :: w in m.cond.waitQueue ==> w in m.cond.sems)
    && (InHand(m).Some? ==> InHand(m).value in m.cond.sems && InHand(m).value !in m.cond.waitQueue)
  }

  ghost predicate ThreadsOk(m: State) {
    forall t :: t in m.pc ==> ThreadOk(m, t)
  }

  ghost predicate WaitersOk(m: State) {
    forall w :: w in m.cond.sems ==> WaiterOk(m, w)
  }

  ghost predicate CondOk(m: State) {
    ThreadsOk(m) && WaitersOk(m) && QueueOk(m)
  }

  ghost predicate Inv(m: State) {
    !m.fault && LockOk(m) && CondOk(m)
  }

  lemma InitOk(threads: set<Tid>)
    ensures Inv(Init(threads))
  {
  }

  // ----- The lock -----

  /** The owners after thread `t` has moved. */
  lemma OwnersMove(m: State, m': State, t: Tid)
    requires t in m.pc && t in m'.pc && m'.pc == m.pc[t := m'.pc[t]]
    ensures |Owners(m')| == |Owners(m)| + (if Owns(m'.pc[t]) then 1 else 0) - (if Owns(m.pc[t]) then 1 else 0)
  {
    hide Owns;
    if Owns(m.pc[t]) == Owns(m'.pc[t]) {
      assert Owners(m') == Owners(m);
    } else if Owns(m.pc[t]) {
      assert Owners(m') == Owners(m) - {t};
    } else {
      assert Owners(m') == Owners(m) + {t};
    }
  }

  /** Two threads that both own the lock are the same. */
  lemma OneOwner(m: State, t: Tid, u: Tid)
    requires Mutex(m) && t in m.pc && u in m.pc && Owns(m.pc[t]) && Owns(m.pc[u])
    ensures t == u && m.lock.value == 0
  {
    hide Owns;
    assert {t, u} <= Owners(m);
    assert |Owners(m)| == |{t, u}| + |Owners(m) - {t, u}|;
  }

  lemma OtherHolder(m: State, t: Tid, a: Action, u: Tid)
    requires LockOk(m) && Enabled(m, t, a) && u in m.pc && u != t && HasHolder(m.pc[u])
    ensures !Owns(m.pc[t]) && !Owns(Apply(m, t, a).pc[t]) && Apply(m, t, a).lockHolder == m.lockHolder
  {
    if Owns(m.pc[t]) {
      OneOwner(m, t, u);
    }
    OneOwner(m, u, u);
    hide LockOk;
  }

  lemma MutexStep(m: State, t: Tid, a: Action)
    requires Mutex(m) && Enabled(m, t, a)
    ensures Mutex(Apply(m, t, a))
  {
    hide Owners;
    OwnersMove(m, Apply(m, t, a), t);
  }

  lemma HolderStep(m: State, t: Tid, a: Action)
    requires LockOk(m) && Enabled(m, t, a)
    ensures HolderOk(Apply(m, t, a))
  {
    hide Mutex, LockQueueOk, Owns, AfterV;
    forall u | u in m.pc && u != t && HasHolder(m.pc[u])
      ensures Apply(m, t, a).lockHolder == m.lockHolder
    {
      OtherHolder(m, t, a, u);
    }
  }

  lemma LockQueueStep(m: State, t: Tid, a: Action)
    requires LockOk(m) && Enabled(m, t, a)
    ensures LockQueueOk(Apply(m, t, a))
  {
    hide HolderOk, Owners, AfterV;
    if a == LockP {
    } else if a == LockV {
      LockVQueue(m, t);
    } else {
      assert Testers(m) <= Testers(Apply(m, t, a));
    }
  }

  /** Release wakes the thread that has slept longest. */
  lemma LockVQueue(m: State, t: Tid)
    requires LockQueueOk(m) && Enabled(m, t, LockV)
    ensures LockQueueOk(Apply(m, t, LockV))
  {
    var m' := Apply(m, t, LockV);
    if m.lock.queue != [] {
      assert m.lock.queue[0] in m.lock.queue && m.lock.queue[0] !in m'.lock.queue;
      assert m.lock.queue[0] in Testers(m');
    }
  }

  // ----- The waiter semaphores -----

  /** No ASSERT fails and no deleted semaphore is touched. */
  lemma NoFault(m: State, t: Tid, a: Action)
    requires Inv(m) && Enabled(m, t, a)
    ensures !Apply(m, t, a).fault
  {
  }

  /** What the actions on the lock alone change about conditions: nothing. */
  ghost predicate Quiet(m: State, m': State, t: Tid) {
    && m' == m.(lock := m'.lock, lockHolder := m'.lockHolder, pc := m'.pc)
    && t in m.pc && t in m'.pc && m'.pc == m.pc[t := m'.pc[t]]
    && WaiterOf(m'.pc[t]) == WaiterOf(m.pc[t])
    && (WaiterOf(m.pc[t]).Some? ==> BeforeWakeup(m'.pc[t]) == BeforeWakeup(m.pc[t]))
    && InHand(m') == InHand(m) && (m.pc[t].Waiting? ==> m'.pc[t] == m.pc[t])
  }

  lemma QuietActions(m: State, t: Tid, a: Action)
    requires Inv(m) && Enabled(m, t, a)
    requires || a.Enter? || a.LockP? || a.SetHolder? || a.Release? || a.LockV? || a.Broadcast?
             || (a.Signal? && m.cond.waitQueue == [])
    ensures Quiet(m, Apply(m, t, a), t)
  {
    hide CondOk, Mutex, LockQueueOk;
    NoFault(m, t, a);
    assert m.pc == m.pc[t := m.pc[t]];
    if m.lockHolder.Some? && m.lockHolder.value != t {
      OtherHolder(m, t, a, m.lockHolder.value);
    }
  }

  lemma QuietStep(m: State, m': State, t: Tid)
    requires Quiet(m, m', t) && CondOk(m)
    ensures CondOk(m')
  {
    hide WaiterOf, BeforeWakeup, InHand, NoDuplicates;
    forall w | w in m'.cond.sems
      ensures WaiterOk(m', w)
    {
      assert WaiterOk(m, w);
    }
  }

  /** A fresh semaphore goes to the end of the queue. */
  lemma PushQueue(m: State, t: Tid)
    requires Inv(m) && Enabled(m, t, Wait)
    ensures QueueOk(Apply(m, t, Wait)) && Apply(m, t, Wait).cond == NewWaiter(m.cond, t)
    ensures !Pending(m, m.cond.next)
    ensures forall w :: Pending(Apply(m, t, Wait), w) <==> Pending(m, w) || w == m.cond.next
  {
  }

  lemma WaitOk(m: State, t: Tid)
    requires Inv(m) && Enabled(m, t, Wait)
    ensures CondOk(Apply(m, t, Wait))
  {
    hide Mutex, LockQueueOk, QueueOk, Pending, InHand, WaiterOk;
    PushQueue(m, t);
    WaitWaiters(m, t);
    assert ThreadOk(m, t);
    NumberedBelow(m);
  }

  lemma NumberedBelow(m: State)
    requires CondOk(m)
    ensures forall w :: w in m.cond.sems ==> w < m.cond.next
  {
  }

  lemma WaitWaiters(m: State, t: Tid)
    requires Inv(m) && Enabled(m, t, Wait)
    ensures WaitersOk(Apply(m, t, Wait))
  {
    hide Mutex, LockQueueOk, QueueOk, Pending, InHand;
    PushQueue(m, t);
    var m' := Apply(m, t, Wait);
    assert ThreadOk(m, t);
    forall w | w in m'.cond.sems
      ensures WaiterOk(m', w)
    {
      if w != m.cond.next {
        assert WaiterOk(m, w);
        assert m'.pc[m.cond.owner[w]] == m.pc[m.cond.owner[w]];
      }
    }
  }

  /** The semaphore that Wait deletes is on no list, in nobody's hands and has no sleeper. */
  lemma DeleteOk(m: State, t: Tid)
    requires Inv(m) && Enabled(m, t, Delete)
    ensures CondOk(Apply(m, t, Delete))
  {
    NoFault(m, t, Delete);
    hide Mutex, LockQueueOk, NoDuplicates;
    var m' := Apply(m, t, Delete);
    assert ThreadOk(m, t) && WaiterOk(m, m.pc[t].waiter);
    assert InHand(m).None? && InHand(m').None?;
    forall w | w in m'.cond.sems
      ensures WaiterOk(m', w)
    {
      assert WaiterOk(m, w);
    }
  }

  /** Taking the semaphore at the front of the queue in hand: it stays pending. */
  lemma PopQueue(m: State, t: Tid)
    requires Inv(m) && Enabled(m, t, Signal) && m.cond.waitQueue != []
    ensures QueueOk(Apply(m, t, Signal)) && Apply(m, t, Signal).cond == Pop(m.cond)
    ensures forall x :: Pending(Apply(m, t, Signal), x) <==> Pending(m, x)
  {
    NoFault(m, t, Signal);
    hide Mutex, LockQueueOk, WaitersOk, ThreadsOk;
    var m' := Apply(m, t, Signal);
    var w := m.cond.waitQueue[0];
    assert InHand(m).None? && InHand(m') == Some(w);
    assert m.cond.waitQueue == [w] + m'.cond.waitQueue;
    assert w !in m'.cond.waitQueue && w in m.cond.waitQueue;
  }

  lemma SignalOk(m: State, t: Tid)
    requires Inv(m) && Enabled(m, t, Signal) && m.cond.waitQueue != []
    ensures CondOk(Apply(m, t, Signal))
  {
    NoFault(m, t, Signal);
    PopQueue(m, t);
    hide Mutex, LockQueueOk, QueueOk, Pending;
    var m' := Apply(m, t, Signal);
    forall x | x in m'.cond.sems
      ensures WaiterOk(m', x)
    {
      assert WaiterOk(m, x);
    }
  }

  /** The V on the semaphore in hand: its owner has been woken once and can now get past its P. */
  lemma HandEmptied(m: State, t: Tid)
    requires Inv(m) && Enabled(m, t, SignalV)
    ensures var m' := Apply(m, t, SignalV); var w := m.pc[t].waiter;
            && w in m.cond.sems && m'.cond == WakeUp(m.cond, w) && m'.lockHolder == m.lockHolder
            && WaiterOk(m, w) && Pending(m, w)
            && QueueOk(m') && forall x :: Pending(m', x) <==> Pending(m, x) && x != w
  {
  }

  lemma SignalVOk(m: State, t: Tid)
    requires Inv(m) && Enabled(m, t, SignalV)
    ensures CondOk(Apply(m, t, SignalV))
  {
    HandEmptied(m, t);
    hide LockOk, NoDuplicates, QueueOk, Pending;
    var m' := Apply(m, t, SignalV);
    forall x | x in m'.cond.sems
      ensures WaiterOk(m', x)
    {
      assert WaiterOk(m, x);
    }
  }

  lemma WaitPHand(m: State, t: Tid)
    requires Inv(m) && Enabled(m, t, WaitP)
    ensures InHand(Apply(m, t, WaitP)) == InHand(m)
    ensures var m' := Apply(m, t, WaitP);
            m'.cond == m.cond.(sems := m'.cond.sems) && m'.cond.sems.Keys == m.cond.sems.Keys
  {
  }

  lemma WaitPWaiters(m: State, t: Tid)
    requires Inv(m) && Enabled(m, t, WaitP)
    ensures WaitersOk(Apply(m, t, WaitP))
  {
    hide Mutex, LockQueueOk, QueueOk, InHand;
    WaitPHand(m, t);
    var m' := Apply(m, t, WaitP);
    assert ThreadOk(m, t) && WaiterOk(m, m.pc[t].waiter);
    forall x | x in m'.cond.sems
      ensures WaiterOk(m', x)
    {
      assert WaiterOk(m, x);
    }
  }

  /** The P on the waiter semaphore: sleeps when not yet signalled, otherwise consumes the wake-up. */
  lemma WaitPOk(m: State, t: Tid)
    requires Inv(m) && Enabled(m, t, WaitP)
    ensures CondOk(Apply(m, t, WaitP))
  {
    hide Mutex, LockQueueOk, NoDuplicates, WaitersOk, InHand;
    WaitPHand(m, t);
    WaitPWaiters(m, t);
    assert ThreadOk(m, t);
  }

  lemma StepOk(m: State, t: Tid, a: Action)
    requires Inv(m) && Enabled(m, t, a)
    ensures Inv(Apply(m, t, a))
  {
    hide Apply, Mutex, HolderOk, LockQueueOk, ThreadsOk, WaitersOk, QueueOk;
    NoFault(m, t, a);
    MutexStep(m, t, a);
    HolderStep(m, t, a);
    LockQueueStep(m, t, a);
    if a == Wait {
      WaitOk(m, t);
    } else if a == Delete {
      DeleteOk(m, t);
    } else if a == Signal && m.cond.waitQueue != [] {
      SignalOk(m, t);
    } else if a == SignalV {
      SignalVOk(m, t);
    } else if a == WaitP {
      WaitPOk(m, t);
    } else {
      QuietActions(m, t, a);
      QuietStep(m, Apply(m, t, a), t);
    }
  }

  // ----- Whole runs -----

  datatype Move = Move(t: Tid, a: Action)

  ghost predicate Trace(ms: seq<State>, moves: seq<Move>) {
    && |ms| == |moves| + 1
    && (exists threads :: ms[0] == Init(threads))
    && forall i :: 0 <= i < |moves| ==>
         Enabled(ms[i], moves[i].t, moves[i].a) && ms[i + 1] == Apply(ms[i], moves[i].t, moves[i].a)
  }

  /** In every state of every interleaving the invariant holds: no ASSERT fails, and no semaphore is
      touched after it has been deleted. */
  lemma {:induction false} TraceOk(ms: seq<State>, moves: seq<Move>, n: nat)
    requires Trace(ms, moves) && n <= |moves|
    ensures Inv(ms[n])
  {
    hide Inv, Apply, Enabled;
    if n == 0 {
      var threads :| ms[0] == Init(threads);
      InitOk(threads);
    } else {
      TraceOk(ms, moves, n - 1);
      StepOk(ms[n - 1], moves[n - 1].t, moves[n - 1].a);
    }
  }

  /** At most one thread is between the end of Acquire's P and the start of Release's V, and lockHolder is
      NULL or that thread. */
  lemma MutualExclusion(m: State, t: Tid, u: Tid)
    requires Inv(m) && t in m.pc && Owns(m.pc[t])
    ensures u in m.pc && Owns(m.pc[u]) ==> u == t
    ensures m.lockHolder == None || m.lockHolder == Some(t)
    ensures HasHolder(m.pc[t]) <==> m.lockHolder == Some(t)
  {
    hide CondOk, LockQueueOk;
    if u in m.pc && Owns(m.pc[u]) {
      OneOwner(m, t, u);
    }
    if m.lockHolder.Some? {
      OneOwner(m, t, m.lockHolder.value);
    }
  }

  /** How often `w` is V-ed by the moves before `n`. */
  function WakeUps(ms: seq<State>, moves: seq<Move>, w: Wid, n: nat): nat
    requires n <= |moves| < |ms|
  {
    if n == 0 then 0
    else
      var m, mv := ms[n - 1], moves[n - 1];
      WakeUps(ms, moves, w, n - 1) +
      if mv.a.SignalV? && mv.t in m.pc && m.pc[mv.t].Signalling? && m.pc[mv.t].waiter == w then 1 else 0
  }

  /** What one step does to the state of the wake-up of `w`. */
  lemma PendingStep(m: State, t: Tid, a: Action, w: Wid)
    requires Inv(m) && Enabled(m, t, a)
    ensures var m' := Apply(m, t, a);
            && m.cond.next <= m'.cond.next
            && (a.SignalV? && m.pc[t].waiter == w ==> w < m.cond.next && Pending(m, w) && !Pending(m', w))
            && (!(a.SignalV? && m.pc[t].waiter == w) ==>
                  && (w < m.cond.next ==> Pending(m', w) == Pending(m, w))
                  && (m.cond.next <= w < m'.cond.next ==> Pending(m', w)))
  {
    hide Mutex, HolderOk, LockQueueOk, ThreadsOk, WaitersOk, QueueOk, InHand;
    NoFault(m, t, a);
    if a == Wait {
      PushQueue(m, t);
    } else if a == Delete {
      DeleteHand(m, t);
    } else if a == Signal && m.cond.waitQueue != [] {
      PopQueue(m, t);
    } else if a == SignalV {
      HandEmptied(m, t);
    } else if a == WaitP {
      WaitPHand(m, t);
    } else {
      QuietActions(m, t, a);
    }
  }

  lemma DeleteHand(m: State, t: Tid)
    requires Inv(m) && Enabled(m, t, Delete)
    ensures InHand(m).None? && InHand(Apply(m, t, Delete)).None?
  {
  }

  lemma SignalsOwn(m: State, t: Tid, a: Action)
    requires Enabled(m, t, a)
    ensures a.SignalV? ==> t in m.pc && m.pc[t].Signalling?
  {
  }

  /** A waiter is woken exactly once, and not before it is taken off the queue; it is past its P only after that; and it
      sleeps only as long as its semaphore is still on the queue or in the signaller's hand. */
  lemma {:induction false} WokenOnce(ms: seq<State>, moves: seq<Move>, w: Wid, n: nat)
    requires Trace(ms, moves) && n <= |moves|
    ensures WakeUps(ms, moves, w, n) == if w < ms[n].cond.next && !Pending(ms[n], w) then 1 else 0
    ensures w < ms[n].cond.next && w !in ms[n].cond.sems ==> WakeUps(ms, moves, w, n) == 1
    ensures forall t :: t in ms[n].pc && WaiterOf(ms[n].pc[t]) == Some(w) && !BeforeWakeup(ms[n].pc[t]) ==>
              WakeUps(ms, moves, w, n) == 1
    ensures w in ms[n].cond.sems && ms[n].cond.sems[w].queue != [] ==> WakeUps(ms, moves, w, n) == 0
  {
    hide Inv, Apply, Enabled, Pending, WaiterOf, BeforeWakeup;
    TraceOk(ms, moves, n);
    WokenState(ms[n], w);
    if n == 0 {
      var threads :| ms[0] == Init(threads);
    } else {
      WokenOnce(ms, moves, w, n - 1);
      TraceOk(ms, moves, n - 1);
      SignalsOwn(ms[n - 1], moves[n - 1].t, moves[n - 1].a);
      PendingStep(ms[n - 1], moves[n - 1].t, moves[n - 1].a, w);
    }
  }

  lemma WokenState(m: State, w: Wid)
    requires Inv(m)
    ensures Pending(m, w) ==> w < m.cond.next && w in m.cond.sems
    ensures w in m.cond.sems ==> w < m.cond.next
    ensures forall t :: t in m.pc && WaiterOf(m.pc[t]) == Some(w) && !BeforeWakeup(m.pc[t]) ==>
              w < m.cond.next && !Pending(m, w)
    ensures w in m.cond.sems && m.cond.sems[w].queue != [] ==> Pending(m, w)
  {
    hide LockOk, NoDuplicates;
  }

  /** Nobody sleeps on a free lock for want of a wake-up: some thread is awake and about to test it. */
  lemma NoLostWakeup(m: State)
    requires Inv(m) && m.lock.queue != [] && m.lock.value > 0
    ensures exists t :: t in m.pc && m.pc[t].Acquiring? && t !in m.lock.queue && Enabled(m, t, LockP)
  {
    var t :| t in Testers(m);
    assert Enabled(m, t, LockP);
  }

  /** While `t` owns the lock, no other thread touches the queue of waiters or wakes anybody. */
  lemma OnlyOwnerTouchesQueue(m: State, t: Tid, u: Tid, a: Action)
    requires Inv(m) && t in m.pc && Owns(m.pc[t]) && u != t && Enabled(m, u, a)
    ensures var m' := Apply(m, u, a);
            t in m'.pc && m'.pc[t] == m.pc[t] && m'.cond.waitQueue == m.cond.waitQueue && !a.SignalV?
  {
    hide CondOk, HolderOk, LockQueueOk;
    if Owns(m.pc[u]) {
      OneOwner(m, t, u);
    }
  }

  /** `t` is inside Condition::Broadcast. */
  predicate InBroadcast(m: State, t: Tid) {
    t in m.pc && (m.pc[t].Broadcasting? || (m.pc[t].Signalling? && m.pc[t].all))
  }

  /** What a Broadcast has still to wake: the semaphore in hand and those on the queue. */
  function ToWake(m: State, t: Tid): seq<Wid> {
    (if t in m.pc && m.pc[t].Signalling? then [m.pc[t].waiter] else []) + m.cond.waitQueue
  }

  /** The semaphores that the moves from `i` to `j` V, in order. */
  function Woken(ms: seq<State>, moves: seq<Move>, i: nat, j: nat): seq<Wid>
    requires i <= j <= |moves| < |ms|
  {
    if i == j then []
    else
      var m, mv := ms[j - 1], moves[j - 1];
      Woken(ms, moves, i, j - 1) +
      if mv.a.SignalV? && mv.t in m.pc && m.pc[mv.t].Signalling? then [m.pc[mv.t].waiter] else []
  }

  lemma BroadcastStep(m: State, t: Tid, a: Action)
    requires Inv(m) && InBroadcast(m, t) && Enabled(m, t, a)
    ensures ToWake(m, t) == (if a.SignalV? then [m.pc[t].waiter] else []) + ToWake(Apply(m, t, a), t)
  {
    hide LockOk, NoDuplicates;
    NoFault(m, t, a);
  }

  /** From the start of a Broadcast to its end, nothing joins the queue, and what leaves it is woken, in order. */
  lemma {:induction false} BroadcastQueue(ms: seq<State>, moves: seq<Move>, t: Tid, i: nat, j: nat)
    requires Trace(ms, moves) && i <= j <= |moves|
    requires forall k :: i <= k < j ==> InBroadcast(ms[k], t)
    ensures ToWake(ms[i], t) == Woken(ms, moves, i, j) + ToWake(ms[j], t)
    decreases j
  {
    hide Inv, Apply, Enabled, ToWake;
    if i < j {
      BroadcastQueue(ms, moves, t, i, j - 1);
      var m, mv := ms[j - 1], moves[j - 1];
      TraceOk(ms, moves, j - 1);
      assert InBroadcast(ms[j - 1], t);
      if mv.t != t {
        OnlyOwnerTouchesQueue(m, t, mv.t, mv.a);
        assert ToWake(ms[j], t) == ToWake(m, t) by { SameToWake(m, ms[j], t); }
      } else {
        BroadcastStep(m, t, mv.a);
        SignalsOwn(m, t, mv.a);
      }
    }
  }

  lemma SameToWake(m: State, m': State, t: Tid)
    requires t in m.pc && t in m'.pc && m'.pc[t] == m.pc[t] && m'.cond.waitQueue == m.cond.waitQueue
    ensures ToWake(m', t) == ToWake(m, t)
  {
  }

  /** Broadcast: from its call to its return, exactly the semaphores that were queued when it was called are V-ed, in
      the order in which they were queued, and nothing is left on the queue. */
  lemma BroadcastWakesAll(ms: seq<State>, moves: seq<Move>, t: Tid, i: nat, j: nat)
    requires Trace(ms, moves) && i < j < |moves|
    requires moves[i] == Move(t, Broadcast)
    requires (forall k :: i < k <= j ==> InBroadcast(ms[k], t)) && !InBroadcast(ms[j + 1], t)
    ensures Woken(ms, moves, i + 1, j + 1) == ms[i].cond.waitQueue && ms[j + 1].cond.waitQueue == []
  {
    hide Inv, InBroadcast, Woken;
    assert ToWake(ms[i + 1], t) == ms[i].cond.waitQueue;
    hide Apply, Enabled;
    BroadcastQueue(ms, moves, t, i + 1, j + 1);
    TraceOk(ms, moves, j);
    BroadcastEnds(ms[j], t, moves[j].t, moves[j].a);
  }

  /** Broadcast cannot be left while somebody waits. */
  lemma BroadcastEnds(m: State, t: Tid, u: Tid, a: Action)
    requires Inv(m) && InBroadcast(m, t) && Enabled(m, u, a) && !InBroadcast(Apply(m, u, a), t)
    ensures Apply(m, u, a).cond.waitQueue == [] && t in Apply(m, u, a).pc && Apply(m, u, a).pc[t] == Holding
  {
  }
}
