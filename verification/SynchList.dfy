/** code/threads/synchlist.cc: a producer/consumer list written as a monitor. Any number of threads call
    Append and RemoveFront; the machine is that of the monitor module, restricted to what these two
    procedures do while they hold the lock. */
module SynchLists {
  import opened Common
  import M = Monitor
  import Mesa
  type Tid = M.Tid

  /** How far a call has got. */
  datatype Role<T> =
    | NoCall
    | Append(item: T)     // before list->Append(item)
    | Appended            // before the Signal
    | Signalled           // before the Release
    | Remove              // in the loop of RemoveFront
    | NonEmpty            // has seen that the list is not empty, before list->RemoveFront()
    | Removed(item: T)    // before the Release

  /** `credit`: the consumers that were signalled and have neither taken an item nor gone back to waiting since. */
  datatype State<T> = State(mon: M.State, list: seq<T>, role: map<Tid, Role<T>>, credit: set<Tid>, fault: bool)

  function Init<T>(threads: set<Tid>): State<T> {
    State(M.Init(threads), [], map t | t in threads :: NoCall, {}, false)
  }

  datatype Action<T> =
    | CallAppend(item: T) | CallRemoveFront
    | Inner(a: M.Action)   // inside Acquire, Release, Wait or Signal
    | DoAppend | DoSignal | Leave | TestEmpty | DoRemove

  /** The steps that the program text of Acquire, Release, Wait and Signal determines. */
  predicate IsInner(pc: M.Pc, a: M.Action) {
    a.LockP? || a.SetHolder? || a.Delete? || a.LockV? || a.WaitP? || a.SignalV? || (a.Release? && pc.Enqueued?)
  }

  predicate Enabled<T(==)>(s: State<T>, t: Tid, a: Action<T>) {
    t in s.role && t in s.mon.pc &&
    match a
    case CallAppend(_) => s.role[t].NoCall? && M.Enabled(s.mon, t, M.Enter)
    case CallRemoveFront => s.role[t].NoCall? && M.Enabled(s.mon, t, M.Enter)
    case Inner(b) => IsInner(s.mon.pc[t], b) && M.Enabled(s.mon, t, b)
    // List::Append asserts that the item is not on the list: callers append distinct pointers.
    case DoAppend => s.role[t].Append? && s.mon.pc[t].Holding? && s.role[t].item !in s.list
    case DoSignal => s.role[t].Appended? && s.mon.pc[t].Holding?
    case Leave => (s.role[t].Signalled? || s.role[t].Removed?) && s.mon.pc[t].Holding?
    case TestEmpty => s.role[t].Remove? && s.mon.pc[t].Holding?
    case DoRemove => s.role[t].NonEmpty? && s.mon.pc[t].Holding?
  }

  function Goto<T>(s: State<T>, t: Tid, role: Role<T>): State<T> {
    s.(role := s.role[t := role])
  }

  /** The consumer whose semaphore a Signal would take off the queue. */
  function FirstWaiter(m: M.State): set<Tid> {
    if m.cond.waitQueue != [] && m.cond.waitQueue[0] in m.cond.owner then {m.cond.owner[m.cond.waitQueue[0]]} else {}
  }

  function Apply<T(==)>(s: State<T>, t: Tid, a: Action<T>): State<T>
    requires Enabled(s, t, a)
  {
    match a
    case CallAppend(item) => Goto(s.(mon := M.Apply(s.mon, t, M.Enter)), t, Append(item))
    case CallRemoveFront => Goto(s.(mon := M.Apply(s.mon, t, M.Enter)), t, Remove)
    case Inner(b) =>
      var s1 := s.(mon := M.Apply(s.mon, t, b));
      if b.LockV? && s.mon.pc[t].w.None? then Goto(s1, t, NoCall) else s1
    case DoAppend =>
      var item := s.role[t].item;
      Goto(s.(list := s.list + [item]), t, Appended)
    case DoSignal =>
      Goto(s.(mon := M.Apply(s.mon, t, M.Signal), credit := s.credit + FirstWaiter(s.mon)), t, Signalled)
    case Leave => s.(mon := M.Apply(s.mon, t, M.Release))
    case TestEmpty =>
      if s.list == [] then s.(mon := M.Apply(s.mon, t, M.Wait), credit := s.credit - {t})
      else Goto(s, t, NonEmpty)
    case DoRemove =>
      if s.list == [] then s.(fault := true)
      else Goto(s.(list := s.list[1..], credit := s.credit - {t}), t, Removed(s.list[0]))
  }

  // ----- The invariant -----

  predicate RolePc<T>(role: Role<T>, pc: M.Pc) {
    match role
    case NoCall => pc.Outside?
    case Append(_) => pc == M.Acquiring(None) || pc == M.Acquired(None) || pc.Holding?
    case Appended => pc.Holding?
    case Signalled => (pc.Signalling? && !pc.all) || pc.Holding? || pc == M.Releasing(None)
    case Remove => pc.Acquiring? || pc.Acquired? || pc.Deleting? || pc.Holding? || pc.Enqueued?
                   || (pc.Releasing? && pc.w.Some?) || pc.Waiting?
    case NonEmpty => pc.Holding?
    case Removed(_) => pc.Holding? || pc == M.Releasing(None)
  }

  ghost predicate RolesOk<T(!new)>(s: State<T>) {
    && s.role.Keys == s.mon.pc.Keys
    && (forall t :: t in s.role ==> RolePc(s.role[t], s.mon.pc[t]))
    && (forall t :: t in s.role && s.role[t].NonEmpty? ==> s.list != [])
  }

  ghost predicate CreditOk<T(!new)>(s: State<T>) {
    forall t :: t in s.credit ==>
      && t in s.role && t in s.mon.pc && (s.role[t].Remove? || s.role[t].NonEmpty?)
      && (M.WaiterOf(s.mon.pc[t]).Some? ==> M.WaiterOf(s.mon.pc[t]).value !in s.mon.cond.waitQueue)
  }

  /** The holder of the lock has appended an item and not yet signalled. */
  ghost predicate Announcing<T(!new)>(s: State<T>) {
    s.mon.lockHolder.Some? && s.mon.lockHolder.value in s.role && s.role[s.mon.lockHolder.value].Appended?
  }

  /** While a consumer waits unsignalled, there are no more items than signalled consumers to take them. */
  ghost predicate NoneLost<T(!new)>(s: State<T>) {
    s.mon.cond.waitQueue != [] ==> |s.list| <= |s.credit| + if Announcing(s) then 1 else 0
  }

  ghost predicate Inv<T(!new)>(s: State<T>) {
    && !s.fault && M.Inv(s.mon)
    && RolesOk(s) && CreditOk(s) && NoneLost(s)
  }

  lemma InitOk<T(!new)>(threads: set<Tid>)
    ensures Inv(Init<T>(threads))
  {
  }

  /** Of the threads with lockHolder set there is only the holder. */
  lemma HolderIsAlone<T(!new)>(s: State<T>, t: Tid)
    requires M.Inv(s.mon) && RolesOk(s) && t in s.role && s.mon.pc[t].Holding?
    ensures s.mon.lockHolder == Some(t)
    ensures forall u :: u in s.role && u != t ==> !s.role[u].NonEmpty? && !s.role[u].Appended?
    ensures Announcing(s) <==> s.role[t].Appended?
  {
  }

  /** What the inner steps of the monitor procedures do not touch. */
  lemma InnerKeeps(m: M.State, t: Tid, b: M.Action)
    requires M.Enabled(m, t, b) && IsInner(m.pc[t], b)
    ensures var m' := M.Apply(m, t, b);
            && m'.cond.waitQueue == m.cond.waitQueue
            && m'.pc.Keys == m.pc.Keys && (forall u :: u in m.pc && u != t ==> m'.pc[u] == m.pc[u])
            && (M.WaiterOf(m'.pc[t]) == M.WaiterOf(m.pc[t]) || M.WaiterOf(m'.pc[t]).None?)
  {
  }

  lemma InnerRole<T>(role: Role<T>, m: M.State, t: Tid, b: M.Action)
    requires M.Enabled(m, t, b) && IsInner(m.pc[t], b) && RolePc(role, m.pc[t]) && !M.Apply(m, t, b).fault
    ensures RolePc(if b.LockV? && m.pc[t].w.None? then NoCall else role, M.Apply(m, t, b).pc[t])
    ensures !role.NonEmpty? && !role.Appended?
  {
  }

  lemma InnerOk<T(!new)>(s: State<T>, t: Tid, b: M.Action)
    requires Inv(s) && Enabled(s, t, Inner(b))
    ensures Inv(Apply(s, t, Inner(b)))
  {
    hide M.LockOk, M.CondOk;
    assert RolePc(s.role[t], s.mon.pc[t]);
    M.StepOk(s.mon, t, b);
    InnerKeeps(s.mon, t, b);
    M.NoFault(s.mon, t, b);
    InnerRole(s.role[t], s.mon, t, b);
    if Announcing(s) {
      assert RolePc(s.role[s.mon.lockHolder.value], s.mon.pc[s.mon.lockHolder.value]);
      M.OtherHolder(s.mon, t, b, s.mon.lockHolder.value);
    }
    hide M.Inv, M.Apply, M.Enabled, M.WaiterOf, RolePc;
  }

  lemma CallOk<T(!new)>(s: State<T>, t: Tid, a: Action<T>)
    requires Inv(s) && Enabled(s, t, a) && (a.CallAppend? || a.CallRemoveFront?)
    ensures Inv(Apply(s, t, a))
  {
    hide M.Inv;
    M.StepOk(s.mon, t, M.Enter);
  }

  lemma AppendOk<T(!new)>(s: State<T>, t: Tid)
    requires Inv(s) && Enabled(s, t, DoAppend)
    ensures Inv(Apply(s, t, DoAppend))
  {
    hide M.LockOk, M.CondOk;
    HolderIsAlone(s, t);
    hide M.Inv, M.WaiterOf;
    var s' := Apply(s, t, DoAppend);
    assert RolePc(s'.role[t], s'.mon.pc[t]);
    hide RolePc;
  }

  lemma SignalOk<T(!new)>(s: State<T>, t: Tid)
    requires Inv(s) && Enabled(s, t, DoSignal)
    ensures Inv(Apply(s, t, DoSignal))
  {
    hide M.Apply, M.Inv, RolePc, M.WaiterOf, CreditOk, NoneLost;
    M.StepOk(s.mon, t, M.Signal);
    SignalEffect<T>(s.mon, t);
    SignalCredit(s, t);
    HolderIsAlone(s, t);
  }

  /** The signalled consumer makes up for the item. */
  lemma SignalCredit<T(!new)>(s: State<T>, t: Tid)
    requires Inv(s) && Enabled(s, t, DoSignal)
    ensures CreditOk(Apply(s, t, DoSignal)) && NoneLost(Apply(s, t, DoSignal))
  {
    hide M.Apply, M.Inv, RolePc, M.WaiterOf, RolesOk;
    assert s.role.Keys == s.mon.pc.Keys by { RolesMatch(s); }
    HolderIsAlone(s, t);
    SignalEffect<T>(s.mon, t);
    if s.mon.cond.waitQueue != [] {
      FirstWaiterIsNew(s);
    }
  }

  lemma RolesMatch<T(!new)>(s: State<T>)
    requires RolesOk(s)
    ensures s.role.Keys == s.mon.pc.Keys
  {
  }

  lemma SignalEffect<T>(m: M.State, t: Tid)
    requires M.Inv(m) && M.Enabled(m, t, M.Signal) && m.pc[t].Holding?
    ensures var m' := M.Apply(m, t, M.Signal);
            && m'.cond.waitQueue == (if m.cond.waitQueue == [] then [] else m.cond.waitQueue[1..])
            && m'.pc == m.pc[t := m'.pc[t]] && RolePc<T>(Signalled, m'.pc[t]) && M.WaiterOf(m'.pc[t]).None?
            && m'.lockHolder == m.lockHolder
  {
  }

  /** The consumer at the head of the queue is in RemoveFront, and has not been given credit before. */
  lemma FirstWaiterIsNew<T(!new)>(s: State<T>)
    requires Inv(s) && s.mon.cond.waitQueue != []
    ensures var w := s.mon.cond.waitQueue[0];
            && w in s.mon.cond.owner && w !in s.mon.cond.waitQueue[1..]
            && var u := s.mon.cond.owner[w];
               u in s.role && u !in s.credit && s.role[u].Remove? && M.WaiterOf(s.mon.pc[u]) == Some(w)
  {
    hide M.LockOk;
    var w := s.mon.cond.waitQueue[0];
    assert w in s.mon.cond.waitQueue;
    assert M.WaiterOk(s.mon, w);
    var u := s.mon.cond.owner[w];
    assert RolePc(s.role[u], s.mon.pc[u]);
  }

  lemma LeaveOk<T(!new)>(s: State<T>, t: Tid)
    requires Inv(s) && Enabled(s, t, Leave)
    ensures Inv(Apply(s, t, Leave))
  {
    hide M.LockOk, M.CondOk;
    HolderIsAlone(s, t);
    M.StepOk(s.mon, t, M.Release);
    M.NoFault(s.mon, t, M.Release);
    hide M.Inv;
  }

  lemma TestOk<T(!new)>(s: State<T>, t: Tid)
    requires Inv(s) && Enabled(s, t, TestEmpty)
    ensures Inv(Apply(s, t, TestEmpty))
  {
    hide M.LockOk, M.CondOk;
    HolderIsAlone(s, t);
    M.StepOk(s.mon, t, M.Wait);
    M.NoFault(s.mon, t, M.Wait);
    NextIsFresh(s.mon);
    hide M.Inv;
  }

  lemma NextIsFresh(m: M.State)
    requires M.Inv(m)
    ensures forall t :: t in m.pc && M.WaiterOf(m.pc[t]).Some? ==> M.WaiterOf(m.pc[t]).value != m.cond.next
  {
  }

  lemma RemoveOk<T(!new)>(s: State<T>, t: Tid)
    requires Inv(s) && Enabled(s, t, DoRemove)
    ensures Inv(Apply(s, t, DoRemove))
  {
    hide M.LockOk, M.CondOk;
    HolderIsAlone(s, t);
    hide M.Inv, M.WaiterOf;
    var s' := Apply(s, t, DoRemove);
    assert RolePc(s'.role[t], s'.mon.pc[t]);
    hide RolePc;
  }

  lemma StepOk<T(!new)>(s: State<T>, t: Tid, a: Action<T>)
    requires Inv(s) && Enabled(s, t, a)
    ensures Inv(Apply(s, t, a))
  {
    hide Inv;
    match a
    case CallAppend(_) => CallOk(s, t, a);
    case CallRemoveFront => CallOk(s, t, a);
    case Inner(b) => InnerOk(s, t, b);
    case DoAppend => AppendOk(s, t);
    case DoSignal => SignalOk(s, t);
    case Leave => LeaveOk(s, t);
    case TestEmpty => TestOk(s, t);
    case DoRemove => RemoveOk(s, t);
  }

  // ----- Whole runs -----

  datatype Move<T> = Move(t: Tid, a: Action<T>)

  ghost predicate Trace<T(!new)>(ss: seq<State<T>>, moves: seq<Move<T>>) {
    && |ss| == |moves| + 1
    && (exists threads :: ss[0] == Init(threads))
    && forall i :: 0 <= i < |moves| ==>
         Enabled(ss[i], moves[i].t, moves[i].a) && ss[i + 1] == Apply(ss[i], moves[i].t, moves[i].a)
  }

  lemma {:induction false} TraceOk<T(!new)>(ss: seq<State<T>>, moves: seq<Move<T>>, n: nat)
    requires Trace(ss, moves) && n <= |moves|
    ensures Inv(ss[n])
  {
    hide Inv, Apply, Enabled;
    if n == 0 {
      var threads :| ss[0] == Init(threads);
      InitOk<T>(threads);
    } else {
      TraceOk(ss, moves, n - 1);
      StepOk(ss[n - 1], moves[n - 1].t, moves[n - 1].a);
    }
  }

  // ----- What each step does -----

  /** Which operation of the monitor a step is, if any. */
  function MonitorAction<T(==)>(s: State<T>, t: Tid, a: Action<T>): Option<M.Action> {
    match a
    case CallAppend(_) => Some(M.Enter)
    case CallRemoveFront => Some(M.Enter)
    case Inner(b) => Some(b)
    case DoSignal => Some(M.Signal)
    case Leave => Some(M.Release)
    case TestEmpty => if s.list == [] then Some(M.Wait) else None
    case DoAppend => None
    case DoRemove => None
  }

  /** The call has ended when the lock is given up for good. */
  predicate Returns<T>(s: State<T>, t: Tid, a: Action<T>) {
    a == Inner(M.LockV) && t in s.mon.pc && s.mon.pc[t] == M.Releasing(None)
  }

  /** The list is a queue that changes at one instant of each call: an append adds the caller's item at the end, a
      removal gives the caller the first item; nothing else touches the list or another caller. */
  ghost predicate QueueStep<T(!new)>(s: State<T>, t: Tid, a: Action<T>, s': State<T>) {
    && t in s.role && t in s'.role && s'.role == s.role[t := s'.role[t]]
    && match a
       case CallAppend(item) => s.role[t] == NoCall && s'.role[t] == Append(item) && s'.list == s.list
       case CallRemoveFront => s.role[t] == NoCall && s'.role[t] == Remove && s'.list == s.list
       case DoAppend => s.role[t].Append? && s'.role[t] == Appended && s'.list == s.list + [s.role[t].item]
       case DoSignal => s.role[t] == Appended && s'.role[t] == Signalled && s'.list == s.list
       case TestEmpty =>
         s.role[t] == Remove && s'.role[t] == (if s.list == [] then Remove else NonEmpty) && s'.list == s.list
       case DoRemove => s.role[t] == NonEmpty && s'.role[t].Removed? && s.list == [s'.role[t].item] + s'.list
       case _ => s'.list == s.list && s'.role[t] == if Returns(s, t, a) then NoCall else s.role[t]
  }

  /** Every step is a step of that queue, and a step of the monitor or none. */
  lemma StepRefines<T(!new)>(s: State<T>, t: Tid, a: Action<T>)
    requires Inv(s) && Enabled(s, t, a)
    ensures QueueStep(s, t, a, Apply(s, t, a))
    ensures var b := MonitorAction(s, t, a);
            if b.Some? then Mesa.SpecStep(Mesa.Abs(s.mon), t, b.value, Mesa.Abs(Apply(s, t, a).mon))
            else Apply(s, t, a).mon == s.mon
  {
    hide M.Inv, M.Apply, CreditOk, NoneLost, RolePc, Mesa.SpecStep, Mesa.Abs;
    assert s.role == s.role[t := s.role[t]];
    var b := MonitorAction(s, t, a);
    if b.Some? {
      Mesa.StepRefines(s.mon, t, b.value);
    }
  }

  /** A thread can go on exactly when it does not sleep, and outside of a call it may make any call. */
  lemma CanGoOn<T(!new)>(s: State<T>, t: Tid)
    requires Inv(s) && t in s.role && (s.role[t].Append? ==> s.role[t].item !in s.list)
    ensures (exists a :: Enabled(s, t, a)) <==> t !in Mesa.Abs(s.mon).line && t !in Mesa.Abs(s.mon).dozing
    ensures s.role[t].NoCall? ==> Enabled(s, t, CallRemoveFront) && forall item :: Enabled(s, t, CallAppend(item))
  {
    hide CreditOk, NoneLost, M.Inv, M.Apply, Mesa.Abs;
    Mesa.CanGoOn(s.mon, t);
    var role, pc := s.role[t], s.mon.pc[t];
    assert RolePc(role, pc);
    if b :| IsInner(pc, b) && M.Enabled(s.mon, t, b) {
      assert Enabled(s, t, Inner(b));
    } else if pc.Outside? {
      assert role.NoCall? && M.Enabled(s.mon, t, M.Enter) && Enabled(s, t, CallRemoveFront);
    } else if pc.Holding? {
      assert M.Enabled(s.mon, t, M.Wait);
      match role
      case Append(_) => assert Enabled(s, t, DoAppend);
      case Appended => assert Enabled(s, t, DoSignal);
      case Signalled => assert Enabled(s, t, Leave);
      case Remove => assert Enabled(s, t, TestEmpty);
      case NonEmpty => assert Enabled(s, t, DoRemove);
      case Removed(_) => assert Enabled(s, t, Leave);
    }
  }

  // ----- Histories, read off the moves -----

  /** What `t` last called Append with, before move `n`. */
  function LastArgument<T>(moves: seq<Move<T>>, t: Tid, n: nat): Option<T>
    requires n <= |moves|
  {
    if n == 0 then None
    else if moves[n - 1].t == t && moves[n - 1].a.CallAppend? then Some(moves[n - 1].a.item)
    else LastArgument(moves, t, n - 1)
  }

  /** The arguments of the calls of Append, in the order in which these put them on the list. */
  function Put<T>(moves: seq<Move<T>>, n: nat): seq<T>
    requires n <= |moves|
  {
    if n == 0 then []
    else
      var item := LastArgument(moves, moves[n - 1].t, n - 1);
      Put(moves, n - 1) + if moves[n - 1].a.DoAppend? && item.Some? then [item.value] else []
  }

  /** What the calls of RemoveFront have got, in the order in which they got it. */
  function Got<T>(ss: seq<State<T>>, moves: seq<Move<T>>, n: nat): seq<T>
    requires n <= |moves| < |ss|
  {
    if n == 0 then []
    else
      var t := moves[n - 1].t;
      Got(ss, moves, n - 1) +
      if moves[n - 1].a.DoRemove? && t in ss[n].role && ss[n].role[t].Removed? then [ss[n].role[t].item] else []
  }

  lemma TraceStep<T(!new)>(ss: seq<State<T>>, moves: seq<Move<T>>, i: nat)
    requires Trace(ss, moves) && i < |moves|
    ensures QueueStep(ss[i], moves[i].t, moves[i].a, ss[i + 1])
  {
    hide Inv, Apply, Enabled, QueueStep;
    TraceOk(ss, moves, i);
    StepRefines(ss[i], moves[i].t, moves[i].a);
  }

  lemma TraceStart<T(!new)>(ss: seq<State<T>>, moves: seq<Move<T>>)
    requires Trace(ss, moves)
    ensures ss[0].list == [] && forall t :: t in ss[0].role ==> ss[0].role[t].NoCall?
  {
    var threads :| ss[0] == Init(threads);
  }

  lemma {:induction false} ArgumentKept<T(!new)>(ss: seq<State<T>>, moves: seq<Move<T>>, t: Tid, n: nat)
    requires Trace(ss, moves) && n <= |moves|
    ensures t in ss[n].role && ss[n].role[t].Append? ==> LastArgument(moves, t, n) == Some(ss[n].role[t].item)
  {
    hide Trace;
    if n == 0 {
      TraceStart(ss, moves);
    } else {
      ArgumentKept(ss, moves, t, n - 1);
      TraceStep(ss, moves, n - 1);
    }
  }

  /** First in, first out, in every run: what the consumers have got, in order, followed by what is on the list, is what
      the producers called Append with, in the order of their appends. */
  lemma {:induction false} FirstInFirstOut<T(!new)>(ss: seq<State<T>>, moves: seq<Move<T>>, n: nat)
    requires Trace(ss, moves) && n <= |moves|
    ensures Put(moves, n) == Got(ss, moves, n) + ss[n].list && !ss[n].fault
  {
    hide Apply, Enabled, Init, LastArgument, RolesOk, CreditOk, NoneLost, M.Inv, QueueStep;
    TraceOk(ss, moves, n);
    if n == 0 {
      TraceStart(ss, moves);
    } else {
      FirstInFirstOut(ss, moves, n - 1);
      TraceStep(ss, moves, n - 1);
      ArgumentKept(ss, moves, moves[n - 1].t, n - 1);
      ListStep(ss[n - 1], moves[n - 1].t, moves[n - 1].a, ss[n]);
      var t, a := moves[n - 1].t, moves[n - 1].a;
      Regroup(Put(moves, n - 1), Got(ss, moves, n - 1), ss[n - 1].list,
              if a.DoAppend? then [ss[n - 1].role[t].item] else [],
              if a.DoRemove? then [ss[n].role[t].item] else [], ss[n].list);
    }
  }

  lemma Regroup<T>(put: seq<T>, got: seq<T>, list: seq<T>, more: seq<T>, first: seq<T>, list': seq<T>)
    requires put == got + list && list + more == first + list'
    ensures put + more == got + first + list'
  {
    assert put + more == got + (list + more);
  }

  /** How a step changes the list. */
  lemma ListStep<T(!new)>(s: State<T>, t: Tid, a: Action<T>, s': State<T>)
    requires QueueStep(s, t, a, s')
    ensures t in s.role && t in s'.role && (a.DoAppend? ==> s.role[t].Append?) && (a.DoRemove? ==> s'.role[t].Removed?)
    ensures s.list + (if a.DoAppend? then [s.role[t].item] else [])
         == (if a.DoRemove? then [s'.role[t].item] else []) + s'.list
  {
  }

  /** A consumer gets the first item of the list, and keeps it until it returns. */
  lemma {:induction false} ItemIsReturned<T(!new)>(ss: seq<State<T>>, moves: seq<Move<T>>, i: nat, j: nat)
    requires Trace(ss, moves) && i < j <= |moves| && moves[i].a.DoRemove?
    requires forall k :: i < k < j && moves[k].t == moves[i].t ==> moves[k].a != Inner(M.LockV)
    ensures ss[i].list != []
    ensures moves[i].t in ss[j].role && ss[j].role[moves[i].t] == Removed(ss[i].list[0])
    decreases j
  {
    hide Apply, Enabled, QueueStep;
    TraceStep(ss, moves, i);
    TakesFirst(ss[i], moves[i].t, ss[i + 1]);
    if i + 1 < j {
      ItemIsReturned(ss, moves, i, j - 1);
      TraceStep(ss, moves, j - 1);
      StillHas(ss[j - 1], moves[j - 1].t, moves[j - 1].a, ss[j], moves[i].t);
    }
  }

  lemma TakesFirst<T(!new)>(s: State<T>, t: Tid, s': State<T>)
    requires QueueStep(s, t, DoRemove, s')
    ensures s.list != [] && t in s'.role && s'.role[t] == Removed(s.list[0])
  {
  }

  lemma StillHas<T(!new)>(s: State<T>, u: Tid, a: Action<T>, s': State<T>, t: Tid)
    requires QueueStep(s, u, a, s') && t in s.role && s.role[t].Removed? && (u == t ==> a != Inner(M.LockV))
    ensures t in s'.role && s'.role[t] == s.role[t]
  {
  }

  /** A consumer on its way to an item: it is past its wait, or its wake-up is there to be taken. */
  ghost predicate OnItsWay<T(!new)>(s: State<T>, t: Tid) {
    && t in s.role && t in s.mon.pc && s.role[t].Remove?
    && (s.mon.pc[t].Acquiring?
        || (s.mon.pc[t].Waiting? && s.mon.pc[t].waiter in s.mon.cond.sems
            && s.mon.cond.sems[s.mon.pc[t].waiter].value == 1))
  }

  /** No wake-up is lost: while a consumer waits unsignalled, there are at most as many items as signalled consumers
      that have not returned, but for one item between a producer's append and its signal; and when the lock is free,
      each of those consumers is on its way. */
  lemma NoLostWakeup<T(!new)>(s: State<T>)
    requires Inv(s) && s.mon.cond.waitQueue != []
    ensures |s.list| <= |s.credit| + if Announcing(s) then 1 else 0
    ensures forall t :: t in s.credit ==> t in s.role && (s.role[t].Remove? || s.role[t].NonEmpty?)
    ensures s.mon.lock.value == 1 ==> !Announcing(s) && forall t :: t in s.credit ==> OnItsWay(s, t)
  {
    hide M.HolderOk, M.LockQueueOk, M.QueueOk;
    if s.mon.lock.value == 1 {
      FreeLockHasNoHolder(s.mon);
      forall t | t in s.credit
        ensures OnItsWay(s, t)
      {
        assert RolePc(s.role[t], s.mon.pc[t]);
        assert M.ThreadOk(s.mon, t);
        if s.mon.pc[t].Waiting? {
          assert M.WaiterOk(s.mon, s.mon.pc[t].waiter);
        }
      }
    }
  }

  lemma FreeLockHasNoHolder(m: M.State)
    requires M.LockOk(m) && m.lock.value == 1
    ensures m.lockHolder == None && forall t :: t in m.pc ==> !M.Owns(m.pc[t])
  {
    assert M.Owners(m) == {};
    forall t | t in m.pc
      ensures !M.Owns(m.pc[t])
    {
      assert t !in M.Owners(m);
    }
  }
}
