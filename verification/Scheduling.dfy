/** What the thread kernel is for: at most one thread runs, the others stand in line, and semaphores count.  Every
    step of the kernel is one step of this, and what happens in a run follows from its steps alone. */
module Scheduling {
  import opened Common
  import opened Kernel

  /** `running`: None when the processor is idle.  `testing`: the threads inside P that are not asleep, which have to
      test their semaphore before they do anything else.  `finished`: not yet deleted. */
  datatype Spec = Spec(
    running: Option<Tid>, ready: seq<Tid>, sems: map<Sid, Sem>, testing: map<Tid, Sid>,
    created: set<Tid>, finished: set<Tid>)

  datatype Op =
    | Make(t: Tid) | MakeSem(s: Sid, initial: nat) | Start(t: Tid)
    | GiveUp | Down(s: Sid) | Up(s: Sid) | Exit | SwitchOver | Bury

  /** The processor goes to the thread that has been ready longest, if there is one. */
  function Switched(a: Spec): Spec {
    if a.ready == [] then a.(running := None) else a.(running := Some(a.ready[0]), ready := a.ready[1..])
  }

  ghost predicate SpecStep(a: Spec, op: Op, a': Spec) {
    match op
    case Make(t) => a' == a.(created := a.created + {t})
    case MakeSem(s, initial) => a' == a.(sems := a.sems[s := Sem(initial, [])])
    case Start(t) => t in a.created && a' == a.(created := a.created - {t}, ready := a.ready + [t])
    case GiveUp =>
      a.running.Some? && if a.ready == [] then a' == a else a' == Switched(a.(ready := a.ready + [a.running.value]))
    case Down(s) =>
      && s in a.sems && a.running.Some?
      && var me, m, b := a.running.value, a.sems[s], a.(testing := a.testing - {a.running.value});
      && a' == if m.value > 0 then b.(sems := a.sems[s := Sem(m.value - 1, m.queue)])
               else Switched(b.(sems := a.sems[s := Sem(0, m.queue + [me])]))
    case Up(s) =>
      && s in a.sems
      && var m := a.sems[s];
      && a' == if m.queue == [] then a.(sems := a.sems[s := Sem(m.value + 1, [])])
               else a.(sems := a.sems[s := Sem(m.value + 1, m.queue[1..])], ready := a.ready + [m.queue[0]],
                       testing := a.testing[m.queue[0] := s])
    case Exit => a.running.Some? && a' == Switched(a.(finished := a.finished + {a.running.value}))
    case SwitchOver => a.running.None? && a.ready != [] && a' == Switched(a)
    case Bury => a' == a.(finished := {})
  }

  predicate Asleep(sems: map<Sid, Sem>, s: Sid, t: Tid) {
    s in sems && t in sems[s].queue
  }

  ghost function Testing(pc: map<Tid, Pc>, sems: map<Sid, Sem>): map<Tid, Sid> {
    map t | t in pc && pc[t].InP? && !Asleep(sems, pc[t].sem, t) :: pc[t].sem
  }

  ghost function Abs(k: State): Spec {
    Spec(if k.idle then None else Some(k.current), k.ready, k.sems,
         Testing(k.pc, k.sems),
         set t | t in k.pc && k.pc[t].Created?, set t | t in k.pc && k.pc[t].Finishing?)
  }

  function OpOf(k: State, step: Step): Op
    requires Enabled(k, step)
  {
    match step
    case NewThread(t) => Make(t)
    case NewSemaphore(s, initial) => MakeSem(s, initial)
    case Fork(t) => Start(t)
    case Yield => GiveUp
    case P(s) => Down(s)
    case Retry => Down(k.pc[k.current].sem)
    case V(s) => Up(s)
    case Finish => Exit
    case Interrupt(s) => Up(s)
    case Wake => SwitchOver
    case Resume => Bury
  }

  lemma MakeIs(k: State, step: Step)
    requires Inv(k) && Enabled(k, step) && (step.NewThread? || step.NewSemaphore?)
    ensures SpecStep(Abs(k), OpOf(k, step), Abs(Apply(k, step)))
  {
    hide SemsOk, NoDuplicates, DyingOk, Placed;
  }

  lemma StartIs(k: State, t: Tid)
    requires Inv(k) && Enabled(k, Fork(t))
    ensures SpecStep(Abs(k), Start(t), Abs(Apply(k, Fork(t))))
  {
    hide SemsOk, NoDuplicates, DyingOk, Placed;
  }

  lemma GiveUpIs(k: State)
    requires Inv(k) && Enabled(k, Yield)
    ensures SpecStep(Abs(k), GiveUp, Abs(Apply(k, Yield)))
  {
    hide SemsOk, NoDuplicates, DyingOk, Placed;
  }

  /** One turn of the loop in P takes a unit, or puts the thread to sleep at the end of the queue. */
  lemma DownIs(k: State, s: Sid)
    requires Inv(k) && s in k.sems
    requires !k.idle && !k.resuming && (k.pc[k.current] == Free || k.pc[k.current] == InP(s))
    ensures SpecStep(Abs(k), Down(s), Abs(TryP(k, s)))
  {
    hide SemsOk, NoDuplicates, DyingOk, PlacesOk, QueuesOk, Testing;
    var k' := TryP(k, s);
    assert Testing(k'.pc, k'.sems) == Testing(k.pc, k.sems) - {k.current} by { DownTests(k, s); }
  }

  lemma DownTests(k: State, s: Sid)
    requires Inv(k) && s in k.sems && !k.idle
    ensures Testing(TryP(k, s).pc, TryP(k, s).sems) == Testing(k.pc, k.sems) - {k.current}
  {
    hide SemsOk, NoDuplicates, DyingOk, Placed;
    NotAsleep(k);
  }

  lemma NotAsleep(k: State)
    requires Inv(k) && !k.idle
    ensures forall s :: s in k.sems ==> k.current !in k.sems[s].queue
  {
    hide SemsOk, NoDuplicates, DyingOk;
  }

  /** V adds a unit, and the thread that has slept longest becomes ready to test the semaphore again. */
  lemma UpIs(k: State, s: Sid)
    requires Inv(k) && s in k.sems
    ensures SpecStep(Abs(k), Up(s), Abs(DoV(k, s)))
  {
    hide SemsOk, DyingOk, PlacesOk, QueuesOk, Testing;
    UpTests(k, s);
  }

  lemma UpTests(k: State, s: Sid)
    requires QueuesOk(k) && s in k.sems
    ensures Testing(DoV(k, s).pc, DoV(k, s).sems) ==
              if k.sems[s].queue == [] then Testing(k.pc, k.sems) else Testing(k.pc, k.sems)[k.sems[s].queue[0] := s]
  {
    hide NoDuplicates;
    var q := k.sems[s].queue;
    if q != [] {
      assert q[0] in q;
      TailOf(q);
    }
  }

  lemma ExitIs(k: State)
    requires Inv(k) && Enabled(k, Finish)
    ensures SpecStep(Abs(k), Exit, Abs(Apply(k, Finish)))
  {
    hide SemsOk, NoDuplicates, DyingOk, Placed;
  }

  lemma SwitchIs(k: State)
    requires Inv(k) && Enabled(k, Wake)
    ensures SpecStep(Abs(k), SwitchOver, Abs(Apply(k, Wake)))
  {
    hide SemsOk, NoDuplicates, DyingOk, Placed;
  }

  /** The finished thread is deleted by the one that is switched to. */
  lemma BuryIs(k: State)
    requires Inv(k) && Enabled(k, Resume)
    ensures SpecStep(Abs(k), Bury, Abs(Apply(k, Resume)))
  {
    hide SemsOk, QueuesOk, PlacesOk, DyingOk, Testing, Resumed, CheckToBeDestroyed;
    ResumeKeeps(k);
    ResumeTests(k);
  }

  lemma ResumeKeeps(k: State)
    requires Inv(k) && Enabled(k, Resume)
    ensures var k' := Apply(k, Resume);
            && k'.current == k.current && k'.idle == k.idle && k'.ready == k.ready && k'.sems == k.sems
            && (forall t :: t in k'.pc && k'.pc[t].Created? <==> t in k.pc && k.pc[t].Created?)
            && (forall t :: t in k'.pc ==> !k'.pc[t].Finishing?)
  {
    hide SemsOk, QueuesOk, PlacesOk;
    assert forall t :: t in k.pc && k.pc[t].Finishing? ==> Dying(k, t);
  }

  lemma ResumeTests(k: State)
    requires Inv(k) && Enabled(k, Resume)
    ensures Testing(Apply(k, Resume).pc, Apply(k, Resume).sems) == Testing(k.pc, k.sems)
  {
    hide SemsOk, QueuesOk, PlacesOk, Asleep;
  }

  /** Each section of the kernel is the specification's step. */
  lemma StepRefines(k: State, step: Step)
    requires Inv(k) && Enabled(k, step)
    ensures SpecStep(Abs(k), OpOf(k, step), Abs(Apply(k, step)))
  {
    hide SpecStep, Abs, SemsOk, QueuesOk, DyingOk;
    match step
    case NewThread(_) => MakeIs(k, step);
    case NewSemaphore(_, _) => MakeIs(k, step);
    case Fork(t) => StartIs(k, t);
    case Yield => GiveUpIs(k);
    case P(s) => DownIs(k, s);
    case Retry => DownIs(k, k.pc[k.current].sem);
    case V(s) => UpIs(k, s);
    case Finish => ExitIs(k);
    case Interrupt(s) => UpIs(k, s);
    case Wake => SwitchIs(k);
    case Resume => BuryIs(k);
  }

  /** The kernel can go on in every state but one: nobody runs, nobody is ready, and only an interrupt can help.  A
      running thread that is not inside P may do anything. */
  lemma CanGoOn(k: State)
    requires Inv(k)
    ensures (exists step :: Enabled(k, step) && !step.Interrupt?) <==> Abs(k).running.Some? || Abs(k).ready != []
    ensures Abs(k).running.None? ==> forall s :: s in k.sems ==> Enabled(k, Interrupt(s))
    ensures Abs(k).running.Some? && !k.resuming && k.current !in Abs(k).testing ==>
              && Enabled(k, Yield) && Enabled(k, Finish)
              && (forall s :: s in k.sems ==> Enabled(k, P(s)) && Enabled(k, V(s)) && Enabled(k, Interrupt(s)))
              && (forall s, n :: s !in k.sems ==> Enabled(k, NewSemaphore(s, n)))
              && (forall t :: t !in k.used ==> Enabled(k, NewThread(t)))
              && (forall t :: t in Abs(k).created ==> Enabled(k, Fork(t)))
  {
    hide SemsOk, NoDuplicates;
    assert Placed(k, k.current);
    if k.idle {
      assert k.ready != [] ==> Enabled(k, Wake);
    } else if k.resuming {
      assert Enabled(k, Resume);
    } else if k.pc[k.current].InP? {
      assert Enabled(k, Retry);
    } else {
      assert Enabled(k, Yield);
    }
  }

  // ----- Whole runs -----

  /** Every run of the kernel is a run of the specification, in which at first only the main thread exists. */
  lemma RunRefines(ks: seq<State>, steps: seq<Step>)
    requires Trace(ks, steps)
    ensures exists main :: Abs(ks[0]) == Spec(Some(main), [], map[], map[], {}, {})
    ensures forall i :: 0 <= i < |steps| ==>
              Enabled(ks[i], steps[i]) && SpecStep(Abs(ks[i]), OpOf(ks[i], steps[i]), Abs(ks[i + 1]))
  {
    hide Inv, Apply, Enabled, SpecStep, OpOf;
    var main :| ks[0] == Init(main);
    assert Abs(ks[0]) == Spec(Some(main), [], map[], map[], {}, {});
    hide Abs;
    forall i | 0 <= i < |steps|
      ensures SpecStep(Abs(ks[i]), OpOf(ks[i], steps[i]), Abs(ks[i + 1]))
    {
      TraceOk(ks, steps, i);
      StepRefines(ks[i], steps[i]);
    }
  }

  /** How many Vs on `s` there are among the steps from `i` to `j`. */
  function Ups(steps: seq<Step>, s: Sid, i: nat, j: nat): nat
    requires i <= j <= |steps|
  {
    if i == j then 0 else Ups(steps, s, i, j - 1) + One(steps[j - 1] == V(s) || steps[j - 1] == Interrupt(s))
  }

  /** The step lets the current thread out of its P on `s`. */
  predicate Passes(k: State, step: Step, k': State, s: Sid) {
    && k.current in k.pc && k.current in k'.pc
    && (step == P(s) || (step.Retry? && k.pc[k.current] == InP(s)))
    && k'.pc[k.current] == Free
  }

  function Downs(ks: seq<State>, steps: seq<Step>, s: Sid, i: nat, j: nat): nat
    requires i <= j <= |steps| < |ks|
  {
    if i == j then 0 else Downs(ks, steps, s, i, j - 1) + One(Passes(ks[j - 1], steps[j - 1], ks[j], s))
  }

  /** What one step does to one semaphore. */
  lemma StepCounts(k: State, step: Step, s: Sid)
    requires Inv(k) && Enabled(k, step) && s in k.sems
    ensures var k' := Apply(k, step);
            && s in k'.sems
            && k'.sems[s].value ==
                 k.sems[s].value + One(step == V(s) || step == Interrupt(s)) - One(Passes(k, step, k', s))
            && (step == V(s) || step == Interrupt(s) ==>
                  if k.sems[s].queue == [] then k'.sems[s].queue == [] && k'.ready == k.ready
                  else k'.sems[s].queue == k.sems[s].queue[1..] && k'.ready == k.ready + [k.sems[s].queue[0]])
            && (step != V(s) && step != Interrupt(s) ==> k.sems[s].queue <= k'.sems[s].queue)
  {
    hide SemsOk, NoDuplicates, QueuesOk, Placed, DyingOk;
  }

  /** A semaphore's value is what it was, plus the Vs, less the Ps that have come through. */
  lemma {:induction false} ValueCounts(ks: seq<State>, steps: seq<Step>, s: Sid, i: nat, j: nat)
    requires Trace(ks, steps) && i <= j <= |steps| && s in ks[i].sems
    ensures s in ks[j].sems
    ensures ks[j].sems[s].value == ks[i].sems[s].value + Ups(steps, s, i, j) - Downs(ks, steps, s, i, j)
    decreases j
  {
    hide Inv, Apply, Enabled, Passes;
    if i < j {
      ValueCounts(ks, steps, s, i, j - 1);
      TraceOk(ks, steps, j - 1);
      StepCounts(ks[j - 1], steps[j - 1], s);
    }
  }

  /** So it is the initial value, plus the Vs, less the Ps, since its creation. */
  lemma ValueSinceCreation(ks: seq<State>, steps: seq<Step>, s: Sid, c: nat, j: nat)
    requires Trace(ks, steps) && c < j <= |steps| && steps[c].NewSemaphore? && steps[c].s == s
    ensures s in ks[j].sems
    ensures ks[j].sems[s].value == steps[c].initial + Ups(steps, s, c + 1, j) - Downs(ks, steps, s, c + 1, j)
  {
    hide Ups, Downs;
    assert Enabled(ks[c], steps[c]) && ks[c + 1] == Apply(ks[c], steps[c]);
    ValueCounts(ks, steps, s, c + 1, j);
  }

  /** A sleeper moves up one place with each V. */
  lemma {:induction false} QueuePosition(ks: seq<State>, steps: seq<Step>, s: Sid, i: nat, j: nat, p: nat)
    requires Trace(ks, steps) && i <= j <= |steps| && s in ks[i].sems && p < |ks[i].sems[s].queue|
    requires Ups(steps, s, i, j) <= p
    ensures s in ks[j].sems && p - Ups(steps, s, i, j) < |ks[j].sems[s].queue|
    ensures ks[j].sems[s].queue[p - Ups(steps, s, i, j)] == ks[i].sems[s].queue[p]
    decreases j
  {
    hide Inv, Apply, Enabled, Passes;
    if i < j {
      QueuePosition(ks, steps, s, i, j - 1, p);
      TraceOk(ks, steps, j - 1);
      StepCounts(ks[j - 1], steps[j - 1], s);
    }
  }

  /** Sleepers are woken in the order in which they came: the one with `p` others before it by the (p+1)-th V from then
      on, which makes it ready. */
  lemma WakeOrder(ks: seq<State>, steps: seq<Step>, s: Sid, i: nat, j: nat, p: nat)
    requires Trace(ks, steps) && i <= j < |steps| && s in ks[i].sems && p < |ks[i].sems[s].queue|
    requires Ups(steps, s, i, j) == p && (steps[j] == V(s) || steps[j] == Interrupt(s))
    ensures ks[j + 1].ready == ks[j].ready + [ks[i].sems[s].queue[p]]
  {
    hide Inv, Apply, Enabled, Passes, Ups;
    QueuePosition(ks, steps, s, i, j, p);
    TraceOk(ks, steps, j);
    StepCounts(ks[j], steps[j], s);
  }

  /** The threads that the processor is given to, in order, by the steps from `i` to `j`. */
  function Dispatched(ks: seq<State>, i: nat, j: nat): seq<Tid>
    requires i <= j < |ks|
  {
    if i == j then []
    else Dispatched(ks, i, j - 1) + if !ks[j - 1].resuming && ks[j].resuming then [ks[j].current] else []
  }

  /** Nothing leaves the ready list but by dispatch, from the front, and nothing joins it but at the end. */
  lemma StepDispatches(k: State, step: Step)
    requires Inv(k) && Enabled(k, step)
    ensures var k' := Apply(k, step);
            k.ready <= (if !k.resuming && k'.resuming then [k'.current] else []) + k'.ready
  {
    hide SemsOk, NoDuplicates, QueuesOk, PlacesOk;
  }

  lemma {:induction false} ReadyMovesUp(ks: seq<State>, steps: seq<Step>, i: nat, j: nat)
    requires Trace(ks, steps) && i <= j <= |steps|
    ensures ks[i].ready <= Dispatched(ks, i, j) + ks[j].ready
    decreases j
  {
    hide Inv, Apply, Enabled;
    if i < j {
      ReadyMovesUp(ks, steps, i, j - 1);
      TraceOk(ks, steps, j - 1);
      StepDispatches(ks[j - 1], steps[j - 1]);
    }
  }

  /** First come, first served: the thread at position p of the ready list is the one that gets the processor at the
      (p+1)-th dispatch from then on. */
  lemma DispatchOrder(ks: seq<State>, steps: seq<Step>, i: nat, j: nat, p: nat)
    requires Trace(ks, steps) && i <= j <= |steps|
    requires p < |ks[i].ready| && p < |Dispatched(ks, i, j)|
    ensures Dispatched(ks, i, j)[p] == ks[i].ready[p]
  {
    hide Trace, Dispatched;
    ReadyMovesUp(ks, steps, i, j);
  }
}
