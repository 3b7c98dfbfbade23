/** code/filesys/synchdisk.cc over code/machine/disk.cc: any number of threads make synchronous requests to
    a device that takes one request at a time and answers by an interrupt. */
module SynchDisks {
  import opened Common
  import M = Monitor
  import Mesa
  type Tid = M.Tid

  datatype Request<D> = Read(sector: nat) | Write(sector: nat, data: D)

  /** `Requested`: in the P that waits for the interrupt; `seen`: what a read has transferred. */
  datatype Role<D> =
    | NoCall
    | Calling(req: Request<D>)
    | Requested(req: Request<D>, seen: Option<D>)
    | Done(req: Request<D>, seen: Option<D>)

  /** `pending`: how many DiskInt events are scheduled. */
  datatype State<D> = State(
    mon: M.State, sem: M.Sem, active: bool, pending: nat, image: map<nat, D>, role: map<Tid, Role<D>>, fault: bool)

  function Init<D>(threads: set<Tid>, image: map<nat, D>): State<D> {
    State(M.Init(threads), M.Sem(0, []), false, 0, image, map t | t in threads :: NoCall, false)
  }

  datatype Action<D> = Call(req: Request<D>) | Inner(a: M.Action) | Issue | Await | Leave

  datatype Step<D> = ByThread(t: Tid, a: Action<D>) | DiskInterrupt

  predicate Enabled<D>(s: State<D>, step: Step<D>) {
    match step
    case DiskInterrupt => s.pending > 0
    case ByThread(t, a) =>
      t in s.role && t in s.mon.pc &&
      match a
      case Call(req) => s.role[t].NoCall? && M.Enabled(s.mon, t, M.Enter) && req.sector in s.image
      case Inner(b) => (b.LockP? || b.SetHolder? || b.LockV?) && M.Enabled(s.mon, t, b)
      case Issue => s.role[t].Calling? && s.mon.pc[t].Holding? && s.role[t].req.sector in s.image
      case Await => s.role[t].Requested? && s.mon.pc[t].Holding? && t !in s.sem.queue
      case Leave => s.role[t].Done? && s.mon.pc[t].Holding?
  }

  function Goto<D>(s: State<D>, t: Tid, role: Role<D>): State<D> {
    s.(role := s.role[t := role])
  }

  function Apply<D>(s: State<D>, step: Step<D>): State<D>
    requires Enabled(s, step)
  {
    match step
    case DiskInterrupt =>
      // Disk::CallBack clears `active` and calls SynchDisk::CallBack, which does the V.
      s.(pending := s.pending - 1, active := false, sem := M.AfterV(s.sem))
    case ByThread(t, a) =>
      match a
      case Call(req) => Goto(s.(mon := M.Apply(s.mon, t, M.Enter)), t, Calling(req))
      case Inner(b) =>
        var s1 := s.(mon := M.Apply(s.mon, t, b));
        if b.LockV? && s.mon.pc[t].w.None? then Goto(s1, t, NoCall) else s1
      case Issue =>
        // ReadRequest and WriteRequest: ASSERT(!active), transfer the data, schedule the interrupt.
        if s.active then s.(fault := true)
        else
          var req := s.role[t].req;
          Goto(s.(active := true, pending := s.pending + 1,
                  image := if req.Write? then s.image[req.sector := req.data] else s.image),
               t, Requested(req, if req.Read? then Some(s.image[req.sector]) else None))
      case Await =>
        if s.sem.value == 0 then s.(sem := M.Sem(0, s.sem.queue + [t]))
        else Goto(s.(sem := s.sem.(value := s.sem.value - 1)), t, Done(s.role[t].req, s.role[t].seen))
      case Leave => s.(mon := M.Apply(s.mon, t, M.Release))
  }

  // ----- The invariant -----

  predicate RolePc<D>(role: Role<D>, pc: M.Pc) {
    match role
    case NoCall => pc.Outside?
    case Calling(_) => pc == M.Acquiring(None) || pc == M.Acquired(None) || pc.Holding?
    case Requested(_, _) => pc.Holding?
    case Done(_, _) => pc.Holding? || pc == M.Releasing(None)
  }

  ghost predicate RolesOk<D(!new)>(s: State<D>) {
    && s.role.Keys == s.mon.pc.Keys
    && (forall t :: t in s.role ==> RolePc(s.role[t], s.mon.pc[t]))
    && (forall t :: t in s.role && s.role[t].Calling? ==> s.role[t].req.sector in s.image)
  }

  /** What a request that has been made has read or written is what is on the disk. */
  ghost predicate DataOk<D(!new)>(s: State<D>) {
    forall t :: t in s.role && t in s.mon.pc && (s.role[t].Requested? || (s.role[t].Done? && s.mon.pc[t].Holding?)) ==>
      var req := s.role[t].req;
      req.sector in s.image && if req.Read? then s.role[t].seen == Some(s.image[req.sector])
                               else s.image[req.sector] == req.data
  }

  /** The thread that is waiting for the device: there is at most one, the holder of the lock. */
  ghost predicate Waits<D(!new)>(s: State<D>) {
    s.mon.lockHolder.Some? && s.mon.lockHolder.value in s.role && s.role[s.mon.lockHolder.value].Requested?
  }

  ghost predicate DeviceOk<D(!new)>(s: State<D>) {
    if !Waits(s) then !s.active && s.pending == 0 && s.sem == M.Sem(0, [])
    else if s.active then s.pending == 1 && (s.sem == M.Sem(0, []) || s.sem == M.Sem(0, [s.mon.lockHolder.value]))
    else s.pending == 0 && s.sem == M.Sem(1, [])
  }

  ghost predicate Inv<D(!new)>(s: State<D>) {
    !s.fault && M.Inv(s.mon) && RolesOk(s) && DataOk(s) && DeviceOk(s)
  }

  lemma InitOk<D(!new)>(threads: set<Tid>, image: map<nat, D>)
    ensures Inv(Init(threads, image))
  {
  }

  /** Of the threads with lockHolder set there is only the holder. */
  lemma HolderIsAlone<D(!new)>(s: State<D>, t: Tid)
    requires M.Inv(s.mon) && RolesOk(s) && t in s.role && s.mon.pc[t].Holding?
    ensures s.mon.lockHolder == Some(t)
    ensures forall u :: u in s.role && u != t ==> !s.role[u].Requested? && !s.mon.pc[u].Holding?
  {
  }

  /** The steps inside Acquire and Release, and how they fit the calls. */
  lemma InnerEffect<D>(role: Role<D>, m: M.State, t: Tid, b: M.Action)
    requires M.Enabled(m, t, b) && (b.LockP? || b.SetHolder? || b.LockV?) && RolePc(role, m.pc[t])
    ensures var m' := M.Apply(m, t, b);
            && m'.pc == m.pc[t := m'.pc[t]] && !role.Requested?
            && RolePc(if b.LockV? && m.pc[t].w.None? then NoCall else role, m'.pc[t])
            && (role.Done? ==> !m'.pc[t].Holding?)
  {
  }

  lemma InnerOk<D(!new)>(s: State<D>, t: Tid, b: M.Action)
    requires Inv(s) && Enabled(s, ByThread(t, Inner(b)))
    ensures Inv(Apply(s, ByThread(t, Inner(b))))
  {
    hide M.LockOk, M.CondOk;
    assert RolePc(s.role[t], s.mon.pc[t]);
    M.StepOk(s.mon, t, b);
    InnerEffect(s.role[t], s.mon, t, b);
    if s.mon.lockHolder.Some? {
      SomeHolder(s.mon);
      if s.mon.lockHolder.value != t {
        M.OtherHolder(s.mon, t, b, s.mon.lockHolder.value);
      }
    }
    hide M.Inv, M.Apply, M.Enabled, RolePc;
  }

  lemma SomeHolder(m: M.State)
    requires M.LockOk(m) && m.lockHolder.Some?
    ensures m.lockHolder.value in m.pc && M.HasHolder(m.pc[m.lockHolder.value])
  {
  }

  lemma CallOk<D(!new)>(s: State<D>, t: Tid, req: Request<D>)
    requires Inv(s) && Enabled(s, ByThread(t, Call(req)))
    ensures Inv(Apply(s, ByThread(t, Call(req))))
  {
    hide M.Inv;
    M.StepOk(s.mon, t, M.Enter);
  }

  /** ASSERT(!active) holds at every request. */
  lemma IssueOk<D(!new)>(s: State<D>, t: Tid)
    requires Inv(s) && Enabled(s, ByThread(t, Issue))
    ensures !s.active && Inv(Apply(s, ByThread(t, Issue)))
  {
    hide M.LockOk, M.CondOk;
    HolderIsAlone(s, t);
    hide M.Inv;
    var s' := Apply(s, ByThread(t, Issue));
    assert RolePc(s'.role[t], s'.mon.pc[t]);
    hide RolePc;
  }

  lemma AwaitOk<D(!new)>(s: State<D>, t: Tid)
    requires Inv(s) && Enabled(s, ByThread(t, Await))
    ensures Inv(Apply(s, ByThread(t, Await)))
  {
    hide M.LockOk, M.CondOk;
    HolderIsAlone(s, t);
    hide M.Inv;
    var s' := Apply(s, ByThread(t, Await));
    assert RolePc(s'.role[t], s'.mon.pc[t]);
    hide RolePc;
  }

  lemma LeaveOk<D(!new)>(s: State<D>, t: Tid)
    requires Inv(s) && Enabled(s, ByThread(t, Leave))
    ensures Inv(Apply(s, ByThread(t, Leave)))
  {
    hide M.LockOk, M.CondOk;
    HolderIsAlone(s, t);
    M.StepOk(s.mon, t, M.Release);
    M.NoFault(s.mon, t, M.Release);
    hide M.Inv;
  }

  lemma InterruptOk<D(!new)>(s: State<D>)
    requires Inv(s) && Enabled(s, DiskInterrupt)
    ensures Inv(Apply(s, DiskInterrupt))
  {
  }

  lemma StepOk<D(!new)>(s: State<D>, step: Step<D>)
    requires Inv(s) && Enabled(s, step)
    ensures Inv(Apply(s, step))
  {
    hide Inv;
    match step
    case DiskInterrupt => InterruptOk(s);
    case ByThread(t, a) =>
      match a
      case Call(req) => CallOk(s, t, req);
      case Inner(b) => InnerOk(s, t, b);
      case Issue => IssueOk(s, t);
      case Await => AwaitOk(s, t);
      case Leave => LeaveOk(s, t);
  }

  // ----- Whole runs -----

  ghost predicate Trace<D(!new)>(ss: seq<State<D>>, steps: seq<Step<D>>) {
    && |ss| == |steps| + 1
    && (exists threads, image: map<nat, D> :: ss[0] == Init(threads, image))
    && forall i :: 0 <= i < |steps| ==> Enabled(ss[i], steps[i]) && ss[i + 1] == Apply(ss[i], steps[i])
  }

  lemma {:induction false} TraceOk<D(!new)>(ss: seq<State<D>>, steps: seq<Step<D>>, n: nat)
    requires Trace(ss, steps) && n <= |steps|
    ensures Inv(ss[n])
  {
    hide Inv, Apply, Enabled;
    if n == 0 {
      var threads, image: map<nat, D> :| ss[0] == Init(threads, image);
      InitOk(threads, image);
    } else {
      TraceOk(ss, steps, n - 1);
      StepOk(ss[n - 1], steps[n - 1]);
    }
  }

  /** `active` says exactly that one disk interrupt is pending. */
  lemma ActiveIsPending<D(!new)>(s: State<D>)
    requires Inv(s)
    ensures s.pending == if s.active then 1 else 0
  {
  }

  // ----- What each step does -----

  /** Which operation of the lock a step is, if any. */
  function LockAction<D>(a: Action<D>): Option<M.Action> {
    match a
    case Call(_) => Some(M.Enter)
    case Inner(b) => Some(b)
    case Leave => Some(M.Release)
    case Issue => None
    case Await => None
  }

  /** The call has ended when the lock is given up. */
  predicate Returns<D>(s: State<D>, t: Tid, a: Action<D>) {
    a == Inner(M.LockV) && t in s.mon.pc && s.mon.pc[t] == M.Releasing(None)
  }

  /** What a thread's step does to the disk, to its own call and to the semaphore; other calls are not touched. */
  ghost predicate CallStep<D(!new)>(s: State<D>, t: Tid, a: Action<D>, s': State<D>) {
    && t in s.role && t in s'.role && s'.role == s.role[t := s'.role[t]]
    && s'.image.Keys == s.image.Keys
    && match a
       case Call(req) =>
         s.role[t] == NoCall && s' == s.(mon := s'.mon, role := s.role[t := Calling(req)])
       case Issue =>
         // A read sees one sector, a write changes one sector, and the device owes one interrupt more.
         && s.role[t].Calling? && s'.role[t].Requested? && s'.role[t].req == s.role[t].req
         && var req := s.role[t].req;
         && req.sector in s.image
         && s'.role[t].seen == (if req.Read? then Some(s.image[req.sector]) else None)
         && (forall x :: x in s.image ==>
               s'.image[x] == if req.Write? && req.sector == x then req.data else s.image[x])
         && s' == s.(role := s'.role, image := s'.image, active := true, pending := s.pending + 1)
       case Await =>
         && s.role[t].Requested?
         && if s.sem.value > 0 then
              s' == s.(sem := M.Sem(s.sem.value - 1, s.sem.queue),
                       role := s.role[t := Done(s.role[t].req, s.role[t].seen)])
            else s' == s.(sem := M.Sem(0, s.sem.queue + [t]))
       case _ =>
         s' == s.(mon := s'.mon, role := s.role[t := if Returns(s, t, a) then NoCall else s.role[t]])
  }

  lemma StepRefines<D(!new)>(s: State<D>, t: Tid, a: Action<D>)
    requires Inv(s) && Enabled(s, ByThread(t, a))
    ensures CallStep(s, t, a, Apply(s, ByThread(t, a)))
    ensures var b := LockAction(a);
            b.Some? ==> Mesa.SpecStep(Mesa.Abs(s.mon), t, b.value, Mesa.Abs(Apply(s, ByThread(t, a)).mon))
  {
    hide M.Inv, M.Apply, DataOk, DeviceOk, RolePc, Mesa.SpecStep, Mesa.Abs;
    assert s.role == s.role[t := s.role[t]];
    if a == Issue {
      IssueOk(s, t);
    }
    var b := LockAction(a);
    if b.Some? {
      Mesa.StepRefines(s.mon, t, b.value);
    }
  }

  /** The interrupt ends the request that is in progress, and wakes whoever sleeps for it. */
  lemma InterruptEffect<D(!new)>(s: State<D>)
    requires Inv(s) && Enabled(s, DiskInterrupt)
    ensures var s' := Apply(s, DiskInterrupt);
            && s.active && Waits(s) && !s'.active && s'.sem == M.Sem(1, [])
            && s' == s.(active := false, pending := 0, sem := s'.sem)
  {
  }

  /** A thread can go on exactly when it sleeps neither for the lock nor for the device; outside of a call it may make
      any request; and the device interrupts exactly when it is busy. */
  lemma CanGoOn<D(!new)>(s: State<D>, t: Tid)
    requires Inv(s) && t in s.role && s.image != map[]
    ensures (exists a :: Enabled(s, ByThread(t, a))) <==> t !in s.mon.lock.queue && t !in s.sem.queue
    ensures s.role[t].NoCall? ==> forall req: Request<D> :: req.sector in s.image ==> Enabled(s, ByThread(t, Call(req)))
    ensures Enabled(s, DiskInterrupt) <==> s.active
  {
    hide DataOk, M.CondOk;
    var role, pc := s.role[t], s.mon.pc[t];
    assert RolePc(role, pc);
    if pc.Holding? {
      match role
      case Calling(_) => assert Enabled(s, ByThread(t, Issue));
      case Requested(_, _) => assert t in s.sem.queue || Enabled(s, ByThread(t, Await));
      case Done(_, _) => assert Enabled(s, ByThread(t, Leave));
    } else if pc.Outside? {
      var x :| x in s.image;
      assert Enabled(s, ByThread(t, Call(Read(x))));
    } else if pc.Acquiring? {
      assert t in s.mon.lock.queue || Enabled(s, ByThread(t, Inner(M.LockP)));
    } else if pc.Acquired? {
      assert Enabled(s, ByThread(t, Inner(M.SetHolder)));
    } else {
      assert Enabled(s, ByThread(t, Inner(M.LockV)));
    }
  }

  // ----- Histories, read off the steps -----

  /** What `t` last called the disk for, before step `n`. */
  function LastCall<D>(steps: seq<Step<D>>, t: Tid, n: nat): Option<Request<D>>
    requires n <= |steps|
  {
    if n == 0 then None
    else match steps[n - 1]
      case ByThread(u, Call(req)) => if u == t then Some(req) else LastCall(steps, t, n - 1)
      case _ => LastCall(steps, t, n - 1)
  }

  /** The request that step `n` issues, if it issues one. */
  function Issued<D>(steps: seq<Step<D>>, n: nat): Option<Request<D>>
    requires n < |steps|
  {
    match steps[n]
    case ByThread(t, Issue) => LastCall(steps, t, n)
    case _ => None
  }

  /** What sector `x` should hold after `n` steps: the data of the last write issued to it, else what it held at
      first. */
  function Written<D>(first: D, steps: seq<Step<D>>, x: nat, n: nat): D
    requires n <= |steps|
  {
    if n == 0 then first
    else
      var req := Issued(steps, n - 1);
      if req.Some? && req.value.Write? && req.value.sector == x then req.value.data
      else Written(first, steps, x, n - 1)
  }

  function Interrupts<D>(steps: seq<Step<D>>, i: nat, j: nat): nat
    requires i <= j <= |steps|
  {
    if i == j then 0 else Interrupts(steps, i, j - 1) + if steps[j - 1].DiskInterrupt? then 1 else 0
  }

  lemma TraceStep<D(!new)>(ss: seq<State<D>>, steps: seq<Step<D>>, i: nat)
    requires Trace(ss, steps) && i < |steps|
    ensures steps[i].ByThread? ==> CallStep(ss[i], steps[i].t, steps[i].a, ss[i + 1])
    ensures steps[i].DiskInterrupt? ==>
              && ss[i].active && !ss[i + 1].active && ss[i + 1].role == ss[i].role && ss[i + 1].image == ss[i].image
              && ss[i + 1].mon == ss[i].mon
  {
    hide Inv, Apply, Enabled, CallStep;
    TraceOk(ss, steps, i);
    if steps[i].ByThread? {
      StepRefines(ss[i], steps[i].t, steps[i].a);
    } else {
      InterruptEffect(ss[i]);
    }
  }

  lemma {:induction false} CallKept<D(!new)>(ss: seq<State<D>>, steps: seq<Step<D>>, t: Tid, n: nat)
    requires Trace(ss, steps) && n <= |steps|
    ensures t in ss[n].role && !ss[n].role[t].NoCall? ==> LastCall(steps, t, n) == Some(ss[n].role[t].req)
  {
    hide Apply, Enabled;
    if n == 0 {
      var threads, image: map<nat, D> :| ss[0] == Init(threads, image);
    } else {
      CallKept(ss, steps, t, n - 1);
      TraceStep(ss, steps, n - 1);
    }
  }

  /** In every run each sector holds the data of the last write issued to it, or what it held at first. */
  lemma {:induction false} DiskIsWrites<D(!new)>(ss: seq<State<D>>, steps: seq<Step<D>>, x: nat, n: nat)
    requires Trace(ss, steps) && n <= |steps|
    ensures x in ss[n].image <==> x in ss[0].image
    ensures x in ss[0].image ==> ss[n].image[x] == Written(ss[0].image[x], steps, x, n)
  {
    hide Apply, Enabled, Init, LastCall;
    if n > 0 {
      DiskIsWrites(ss, steps, x, n - 1);
      TraceStep(ss, steps, n - 1);
      if steps[n - 1].ByThread? {
        CallKept(ss, steps, steps[n - 1].t, n - 1);
      }
    }
  }

  /** From its request until it gives up the lock, a call keeps its request and what it has seen; the device answers
      once, and the call is past its wait only after that. */
  ghost predicate Serving<D(!new)>(s: State<D>, t: Tid, req: Request<D>, seen: Option<D>, interrupts: nat) {
    && t in s.role && t in s.mon.pc && s.mon.pc[t].Holding?
    && (s.role[t] == Requested(req, seen) || s.role[t] == Done(req, seen))
    && interrupts == if s.active then 0 else 1
  }

  lemma IssueServes<D(!new)>(s: State<D>, t: Tid)
    requires Inv(s) && Enabled(s, ByThread(t, Issue))
    ensures s.role[t].req.sector in s.image
    ensures Serving(Apply(s, ByThread(t, Issue)), t, s.role[t].req,
                    if s.role[t].req.Read? then Some(s.image[s.role[t].req.sector]) else None, 0)
  {
    IssueOk(s, t);
  }

  lemma StepServes<D(!new)>(s: State<D>, step: Step<D>, t: Tid, req: Request<D>, seen: Option<D>, interrupts: nat)
    requires Inv(s) && Enabled(s, step) && Serving(s, t, req, seen, interrupts) && step != ByThread(t, Leave)
    ensures Serving(Apply(s, step), t, req, seen, interrupts + if step.DiskInterrupt? then 1 else 0)
  {
    hide M.Inv, DataOk, M.Apply, M.Enabled, RolePc, DeviceOk;
    HolderIsAlone(s, t);
    if step.DiskInterrupt? {
      InterruptEffect(s);
    } else {
      var u, a := step.t, step.a;
      assert s.mon.pc[t].Holding?;
      if a.Call? {
        LockMoves(s.mon, u, M.Enter);
      } else if a.Inner? {
        LockMoves(s.mon, u, a.a);
      }
    }
  }

  /** The steps inside Acquire and Release are not those of a thread that holds the lock, and move one thread only. */
  lemma LockMoves(m: M.State, t: Tid, b: M.Action)
    requires M.Enabled(m, t, b) && (b.Enter? || b.LockP? || b.SetHolder? || b.LockV?)
    ensures !m.pc[t].Holding? && M.Apply(m, t, b).pc == m.pc[t := M.Apply(m, t, b).pc[t]]
  {
  }

  lemma {:induction false} StillServes<D(!new)>(ss: seq<State<D>>, steps: seq<Step<D>>, t: Tid, i: nat, n: nat)
    requires Trace(ss, steps) && i < n <= |steps| && steps[i] == ByThread(t, Issue)
    requires forall k :: i < k < n ==> steps[k] != ByThread(t, Leave)
    ensures t in ss[i].role && ss[i].role[t].Calling? && ss[i].role[t].req.sector in ss[i].image
    ensures var req := ss[i].role[t].req;
            Serving(ss[n], t, req, if req.Read? then Some(ss[i].image[req.sector]) else None,
                    Interrupts(steps, i + 1, n))
    decreases n
  {
    hide Inv, Apply, Serving;
    TraceOk(ss, steps, i);
    IssueServes(ss[i], t);
    if i + 1 < n {
      StillServes(ss, steps, t, i, n - 1);
      TraceOk(ss, steps, n - 1);
      var req := ss[i].role[t].req;
      StepServes(ss[n - 1], steps[n - 1], t, req, if req.Read? then Some(ss[i].image[req.sector]) else None,
                 Interrupts(steps, i + 1, n - 1));
    }
  }

  /** A call that returns has done what it was called for: between its request and its return there was exactly one disk
      interrupt, and a read has seen the data of the last write issued to its sector before, or what was there at first.
      What it has read or written is still on the disk. */
  lemma CallReturns<D(!new)>(ss: seq<State<D>>, steps: seq<Step<D>>, t: Tid, i: nat, n: nat)
    requires Trace(ss, steps) && i < n < |steps| && steps[i] == ByThread(t, Issue) && steps[n] == ByThread(t, Leave)
    requires forall k :: i < k < n ==> steps[k] != ByThread(t, Leave)
    ensures var req := LastCall(steps, t, i);
            && req.Some? && req.value.sector in ss[0].image
            && (var was := Written(ss[0].image[req.value.sector], steps, req.value.sector, i);
                t in ss[n].role && ss[n].role[t] == Done(req.value, if req.value.Read? then Some(was) else None))
            && req.value.sector in ss[n].image
            && (req.value.Read? ==> ss[n].role[t].seen == Some(ss[n].image[req.value.sector]))
            && (req.value.Write? ==> ss[n].image[req.value.sector] == req.value.data)
    ensures Interrupts(steps, i + 1, n) == 1
  {
    hide Apply, Written, LastCall, Interrupts;
    StillServes(ss, steps, t, i, n);
    CallKept(ss, steps, t, i);
    DiskIsWrites(ss, steps, ss[i].role[t].req.sector, i);
    TraceOk(ss, steps, n);
    ReturnsIdle(ss[n], t);
  }

  lemma ReturnsIdle<D(!new)>(s: State<D>, t: Tid)
    requires Inv(s) && Enabled(s, ByThread(t, Leave))
    ensures !s.active && s.role[t].req.sector in s.image
    ensures s.role[t].req.Read? ==> s.role[t].seen == Some(s.image[s.role[t].req.sector])
    ensures s.role[t].req.Write? ==> s.image[s.role[t].req.sector] == s.role[t].req.data
  {
  }
}
