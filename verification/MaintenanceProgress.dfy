/** What the maintenance protocol gets done when nothing fails: admission, drain, acknowledgement, hold and release. */
module MaintenanceProgress {
  import opened Base
  import opened MaintenanceProtocol
  import opened MaintenanceSafety

  lemma RunThree(s: State, a: Event, b: Event, c: Event)
    ensures Run(s, [a, b, c]) == Step(Step(Step(s, a), b), c)
  {
    RunFive(s, a, b, c, c, c);
  }

  lemma RunSix(s: State, a: Event, b: Event, c: Event, d: Event, e: Event, f: Event)
    ensures Run(s, [a, b, c, d, e, f]) == Step(Run(s, [a, b, c, d, e]), f)
  {
    assert [a, b, c, d, e, f] == [a, b, c, d, e] + [f];
    RunAppend(s, [a, b, c, d, e], f);
  }

  lemma {:induction false} RunJoin(s: State, xs: seq<Event>, ys: seq<Event>)
    ensures Run(s, xs + ys) == Run(Run(s, xs), ys)
  {
    if ys == [] {
      assert xs + ys == xs;
    } else {
      RunJoin(s, xs, ys[..|ys| - 1]);
      assert (xs + ys)[..|xs + ys| - 1] == xs + ys[..|ys| - 1];
    }
  }

  // ----- the acknowledgement

  /** What the file says once this process has written it with `inflight` operations. */
  predicate Acknowledges(ack: Option<Ack>, control: Control, i: Instance, inflight: int, uncertain: bool) {
    ack.Some? && ack.value.op == control.op && ack.value.instance == i && ack.value.inflight == inflight
    && (ack.value.quiescent <==> !control.open && inflight == 0 && !uncertain)
  }

  const PUBLICATION := [PublishRequest, PublishRead(true), PublishWrite(Written)]

  /** A publication, wherever it is made. */
  function Publishes(s: State): State {
    Step(Step(s, PublishRead(true)), PublishWrite(Written))
  }

  lemma PublishesAck(s: State, k: Cont)
    requires s.worker.Some? && s.worker.value.cpu == Publish(k)
    ensures var w, s' := s.worker.value, Publishes(s);
      && s' == WithWorker(s, AfterPublished(w, k)).(ack := s'.ack)
      && Acknowledges(s'.ack, s.control, w.instance, w.inflight, w.uncertain)
  {
    var s1 := Step(s, PublishRead(true));
    assert s1.worker.value.cpu.Write? && s1.worker.value.cpu.k == k;
    assert s1 == WithWorker(s, s.worker.value.(cpu := s1.worker.value.cpu));
  }

  lemma PublicationSteps(s: State)
    requires s.worker.Some? && s.worker.value.cpu == Loop
    ensures var w, s' := s.worker.value, Publishes(Step(s, PublishRequest));
      s' == s.(ack := s'.ack) && Acknowledges(s'.ack, s.control, w.instance, w.inflight, w.uncertain)
  {
    var s1 := Step(s, PublishRequest);
    assert s1 == WithWorker(s, s.worker.value.(cpu := Publish(Heartbeat)));
    PublishesAck(s1, Heartbeat);
  }

  lemma PublicationSays(s: State)
    requires s.worker.Some? && s.worker.value.cpu == Loop
    ensures var w, s' := s.worker.value, Run(s, PUBLICATION);
      s' == s.(ack := s'.ack) && Acknowledges(s'.ack, s.control, w.instance, w.inflight, w.uncertain)
  {
    PublicationSteps(s);
    RunThree(s, PublishRequest, PublishRead(true), PublishWrite(Written));
  }

  /** A certain worker with nothing in flight under a hold makes itself known as quiescent. */
  lemma IdleWorkerIsQuiescent(s: State, x: OperationId)
    requires s.worker.Some? && s.worker.value.cpu == Loop && !s.worker.value.uncertain && s.worker.value.inflight == 0
    requires s.control == Control(false, x)
    ensures LiveQuiescent(Run(s, PUBLICATION), x)
  {
    PublicationSays(s);
  }

  // ----- one operation of the worker

  predicate Fresh(s: State, t: Task) {
    s.worker.Some? && s.worker.value.cpu == Loop && t !in s.worker.value.tasks && OfTask(t) !in s.leases
  }

  /** The call takes the shared lease. */
  function Leased(s: State, t: Task): State {
    Step(Step(s, RunEnter(t)), TakeShared(true))
  }

  lemma LeaseIsTaken(s: State, t: Task)
    requires Fresh(s, t) && !s.worker.value.uncertain && !s.ex
    ensures Leased(s, t) == WithWorker(s, s.worker.value.(cpu := Holding(t))).(leases := s.leases + {OfTask(t)})
  {
    assert Step(s, RunEnter(t)) == WithWorker(s, s.worker.value.(cpu := Admit(t)));
  }

  lemma OpenAdmitsSteps(s: State, t: Task)
    requires Fresh(s, t) && !s.worker.value.uncertain && s.control.open && !s.ex
    ensures var s' := Publishes(Step(Leased(s, t), ReadForAdmission(true)));
      var w := s.worker.value;
      && s' == s.(ack := s'.ack, leases := s.leases + {OfTask(t)},
                  worker := Some(w.(inflight := w.inflight + 1, tasks := w.tasks[t := Running])))
      && Acknowledges(s'.ack, s.control, w.instance, w.inflight + 1, false)
  {
    var w := s.worker.value;
    LeaseIsTaken(s, t);
    var s3 := Step(Leased(s, t), ReadForAdmission(true));
    var w3 := w.(inflight := w.inflight + 1, tasks := w.tasks[t := Admitting], cpu := Publish(StartBody(t)));
    assert s3 == WithWorker(Leased(s, t), w3);
    PublishesAck(s3, StartBody(t));
    assert w.tasks[t := Admitting][t := Running] == w.tasks[t := Running];
  }

  /** Open control and no exclusive lease: the body is called, counted and leased, and the file says `draining`. */
  lemma OpenAdmits(s: State, t: Task)
    requires Fresh(s, t) && !s.worker.value.uncertain && s.control.open && !s.ex
    ensures var s' := Run(s, [RunEnter(t), TakeShared(true), ReadForAdmission(true), PublishRead(true), PublishWrite(Written)]);
      var w := s.worker.value;
      && s' == s.(ack := s'.ack, leases := s.leases + {OfTask(t)},
                  worker := Some(w.(inflight := w.inflight + 1, tasks := w.tasks[t := Running])))
      && Acknowledges(s'.ack, s.control, w.instance, w.inflight + 1, false)
  {
    OpenAdmitsSteps(s, t);
    RunFive(s, RunEnter(t), TakeShared(true), ReadForAdmission(true), PublishRead(true), PublishWrite(Written));
  }

  /** From a refusal on. */
  lemma RefusalSteps(s: State, t: Task)
    requires s.worker.Some? && s.worker.value.cpu == Publish(Refused(t))
    requires OfTask(t) !in s.leases || (!s.worker.value.uncertain && s.worker.value.safety == None)
    ensures var s', w := Step(Publishes(s), LeaveRun), s.worker.value;
      && s' == s.(ack := s'.ack, leases := s.leases - {OfTask(t)}, worker := Some(w.(cpu := Loop)))
      && Acknowledges(s'.ack, s.control, w.instance, w.inflight, w.uncertain)
  {
    PublishesAck(s, Refused(t));
    if OfTask(t) !in s.leases { assert s.leases - {OfTask(t)} == s.leases; }
  }

  lemma HoldRefusesSteps(s: State, t: Task)
    requires Fresh(s, t) && !s.worker.value.uncertain && s.worker.value.safety == None && !s.control.open && !s.ex
    ensures var s' := Step(Publishes(Step(Leased(s, t), ReadForAdmission(true))), LeaveRun);
      && s' == s.(ack := s'.ack)
      && Acknowledges(s'.ack, s.control, s.worker.value.instance, s.worker.value.inflight, false)
  {
    var w := s.worker.value;
    LeaseIsTaken(s, t);
    var s3 := Step(Leased(s, t), ReadForAdmission(true));
    assert s3 == WithWorker(Leased(s, t), w.(cpu := Publish(Refused(t))));
    RefusalSteps(s3, t);
    assert s.leases + {OfTask(t)} - {OfTask(t)} == s.leases;
    assert w.(cpu := Loop) == w;
  }

  /** Under a hold the call is refused: only the file is written again, and the lease is given back. */
  lemma HoldRefuses(s: State, t: Task)
    requires Fresh(s, t) && !s.worker.value.uncertain && s.worker.value.safety == None && !s.control.open && !s.ex
    ensures var s' := Run(s, [RunEnter(t), TakeShared(true), ReadForAdmission(true), PublishRead(true), PublishWrite(Written), LeaveRun]);
      && s' == s.(ack := s'.ack)
      && Acknowledges(s'.ack, s.control, s.worker.value.instance, s.worker.value.inflight, false)
  {
    HoldRefusesSteps(s, t);
    RunSix(s, RunEnter(t), TakeShared(true), ReadForAdmission(true), PublishRead(true), PublishWrite(Written), LeaveRun);
    RunFive(s, RunEnter(t), TakeShared(true), ReadForAdmission(true), PublishRead(true), PublishWrite(Written));
  }

  lemma ExclusiveRefusesSteps(s: State, t: Task)
    requires Fresh(s, t) && !s.worker.value.uncertain && s.ex
    ensures var s' := Step(Publishes(Leased(s, t)), LeaveRun);
      s' == s.(ack := s'.ack)
      && Acknowledges(s'.ack, s.control, s.worker.value.instance, s.worker.value.inflight, false)
  {
    var w := s.worker.value;
    var s1 := Step(s, RunEnter(t));
    assert s1 == WithWorker(s, w.(cpu := Admit(t)));
    assert Leased(s, t) == WithWorker(s, w.(cpu := Publish(Refused(t))));
    RefusalSteps(Leased(s, t), t);
    assert s.leases - {OfTask(t)} == s.leases && w.(cpu := Loop) == w;
  }

  /** While the exclusive lease is held the call is refused without a lease. */
  lemma ExclusiveRefuses(s: State, t: Task)
    requires Fresh(s, t) && !s.worker.value.uncertain && s.ex
    ensures var s' := Run(s, [RunEnter(t), TakeShared(true), PublishRead(true), PublishWrite(Written), LeaveRun]);
      s' == s.(ack := s'.ack)
      && Acknowledges(s'.ack, s.control, s.worker.value.instance, s.worker.value.inflight, false)
  {
    ExclusiveRefusesSteps(s, t);
    RunFive(s, RunEnter(t), TakeShared(true), PublishRead(true), PublishWrite(Written), LeaveRun);
  }

  lemma UncertainRefusesSteps(s: State, t: Task)
    requires Fresh(s, t) && s.worker.value.uncertain
    ensures var s' := Step(Publishes(Step(s, RunEnter(t))), LeaveRun);
      s' == s.(ack := s'.ack)
      && Acknowledges(s'.ack, s.control, s.worker.value.instance, s.worker.value.inflight, true)
  {
    var w := s.worker.value;
    var s1 := Step(s, RunEnter(t));
    assert s1 == WithWorker(s, w.(cpu := Publish(Refused(t))));
    RefusalSteps(s1, t);
    assert s.leases - {OfTask(t)} == s.leases && w.(cpu := Loop) == w;
  }

  /** An uncertain process refuses every call before it touches the lock. */
  lemma UncertainRefuses(s: State, t: Task)
    requires Fresh(s, t) && s.worker.value.uncertain
    ensures var s' := Run(s, [RunEnter(t), PublishRead(true), PublishWrite(Written), LeaveRun]);
      s' == s.(ack := s'.ack)
      && Acknowledges(s'.ack, s.control, s.worker.value.instance, s.worker.value.inflight, true)
  {
    UncertainRefusesSteps(s, t);
    RunFive(s, RunEnter(t), PublishRead(true), PublishWrite(Written), LeaveRun, LeaveRun);
  }

  function EndEvents(t: Task): seq<Event> {
    [BodyReturns(t), Close(t), PublishRead(true), PublishWrite(Written), Propagate(Nothing), LeaveRun]
  }

  lemma CloseSteps(s: State, t: Task)
    requires s.worker.Some? && s.worker.value.cpu == Loop && t in s.worker.value.tasks && s.worker.value.tasks[t] == Running
    requires !s.worker.value.uncertain
    ensures var w := s.worker.value;
      Step(Step(s, BodyReturns(t)), Close(t))
      == WithWorker(s, w.(tasks := w.tasks - {t}, inflight := w.inflight - 1, cpu := Publish(Closing(t))))
  {
    var w := s.worker.value;
    assert Step(s, BodyReturns(t)) == WithWorker(s, w.(tasks := w.tasks[t := Draining(true)]));
    assert w.tasks[t := Draining(true)] - {t} == w.tasks - {t};
  }

  /** From the publication after counting out to the end of `run`. */
  lemma LeaveSteps(s: State, t: Task)
    requires s.worker.Some? && s.worker.value.cpu == Publish(Closing(t)) && !s.worker.value.uncertain && s.worker.value.safety == None
    ensures var s', w := Step(Step(Publishes(s), Propagate(Nothing)), LeaveRun), s.worker.value;
      && s' == s.(ack := s'.ack, leases := s.leases - {OfTask(t)}, worker := Some(w.(cpu := Loop)))
      && Acknowledges(s'.ack, s.control, w.instance, w.inflight, false)
  {
    var w := s.worker.value;
    PublishesAck(s, Closing(t));
    var s1 := Publishes(s);
    assert s1 == WithWorker(s, w.(cpu := Unwind(t))).(ack := s1.ack);
    var s2 := Step(s1, Propagate(Nothing));
    assert s2 == WithWorker(s, w.(cpu := Cpu.Leave(t))).(ack := s1.ack);
    if OfTask(t) !in s.leases { assert s.leases - {OfTask(t)} == s.leases; }
  }

  lemma ReturnEndsSteps(s: State, t: Task)
    requires s.worker.Some? && s.worker.value.cpu == Loop && t in s.worker.value.tasks && s.worker.value.tasks[t] == Running
    requires !s.worker.value.uncertain && s.worker.value.safety == None
    ensures var s', w := Step(Step(Publishes(Step(Step(s, BodyReturns(t)), Close(t))), Propagate(Nothing)), LeaveRun), s.worker.value;
      && s' == s.(ack := s'.ack, leases := s.leases - {OfTask(t)},
                  worker := Some(w.(inflight := w.inflight - 1, tasks := w.tasks - {t})))
      && Acknowledges(s'.ack, s.control, w.instance, w.inflight - 1, false)
  {
    CloseSteps(s, t);
    LeaveSteps(Step(Step(s, BodyReturns(t)), Close(t)), t);
  }

  /** A body that returns is counted out, its lease given back, and the file says so. */
  lemma ReturnEnds(s: State, t: Task)
    requires s.worker.Some? && s.worker.value.cpu == Loop && t in s.worker.value.tasks && s.worker.value.tasks[t] == Running
    requires !s.worker.value.uncertain && s.worker.value.safety == None
    ensures var s', w := Run(s, EndEvents(t)), s.worker.value;
      && s' == s.(ack := s'.ack, leases := s.leases - {OfTask(t)},
                  worker := Some(w.(inflight := w.inflight - 1, tasks := w.tasks - {t})))
      && Acknowledges(s'.ack, s.control, w.instance, w.inflight - 1, false)
  {
    ReturnEndsSteps(s, t);
    RunSix(s, BodyReturns(t), Close(t), PublishRead(true), PublishWrite(Written), Propagate(Nothing), LeaveRun);
    RunFive(s, BodyReturns(t), Close(t), PublishRead(true), PublishWrite(Written), Propagate(Nothing));
  }

  /** What ends `run` after the operation was counted out: nothing more to do, or a refusal or an error from further down,
      each made known before the lease is looked at. */
  lemma UnwindEnds(s: State, t: Task)
    requires s.worker.Some? && s.worker.value.cpu == Unwind(t)
    ensures var w := s.worker.value;
      var refused := Publishes(Step(s, Propagate(AdmissionClosed)));
      var failed := Publishes(Step(Step(s, Propagate(MaintenanceError)), MarkShared(false)));
      && Step(s, Propagate(Raised.Nothing)) == WithWorker(s, w.(cpu := Cpu.Leave(t)))
      && refused == WithWorker(s, w.(cpu := Cpu.Leave(t))).(ack := refused.ack)
      && Acknowledges(refused.ack, s.control, w.instance, w.inflight, w.uncertain)
      && failed == WithWorker(s, w.(uncertain := true, cpu := Cpu.Leave(t))).(ack := failed.ack)
      && Acknowledges(failed.ack, s.control, w.instance, w.inflight, true)
  {
    var w := s.worker.value;
    var s1 := Step(s, Propagate(AdmissionClosed));
    assert s1 == WithWorker(s, w.(cpu := Publish(Refused(t))));
    PublishesAck(s1, Refused(t));
    var s2 := Step(Step(s, Propagate(MaintenanceError)), MarkShared(false));
    assert s2 == WithWorker(s, w.(uncertain := true, cpu := Publish(Refused(t))));
    PublishesAck(s2, Refused(t));
  }

  // ----- an operation is accounted for from the call of its body until it is counted out

  predicate InHand(w: Worker, k: Cont) {
    k.StartBody? || k.FailBody? ==> k.task in w.tasks && !w.tasks[k.task].Draining?
  }

  predicate HandsOff(s: State) {
    s.worker.Some? ==>
      match s.worker.value.cpu
      case Admit(t) => t !in s.worker.value.tasks
      case Holding(t) => t !in s.worker.value.tasks
      case Publish(k) => InHand(s.worker.value, k)
      case Write(k, _) => InHand(s.worker.value, k)
      case Marking(k, _) => InHand(s.worker.value, k)
      case _ => true
  }

  predicate Ran(s: State, t: Task) {
    s.worker.Some? && t in s.worker.value.tasks && HasRun(s.worker.value.tasks[t])
  }

  lemma AfterPublicationKeepsRan(w: Worker, k: Cont, t: Task)
    requires InHand(w, k)
    ensures t in w.tasks && HasRun(w.tasks[t]) ==>
      && t in AfterPublished(w, k).tasks && HasRun(AfterPublished(w, k).tasks[t])
      && t in AfterMarked(w, k).tasks && HasRun(AfterMarked(w, k).tasks[t])
    ensures AfterMarked(w, k).cpu.Publish? && (AfterMarked(w, k).cpu.k.StartBody? || AfterMarked(w, k).cpu.k.FailBody?) ==>
      k.StartBody? && AfterMarked(w, k) == w.(cpu := Publish(FailBody(k.task)))
    ensures AfterPublished(w, k).cpu.Publish? ==> AfterPublished(w, k).cpu.k.Refused?
    ensures !AfterPublished(w, k).cpu.Write? && !AfterPublished(w, k).cpu.Marking?
            && !AfterPublished(w, k).cpu.Admit? && !AfterPublished(w, k).cpu.Holding?
  {
  }

  lemma PublicationStepKeepsRan(s: State, e: Event, t: Task)
    requires HandsOff(s) && (e.PublishRead? || e.PublishWrite? || e.MarkShared?)
    ensures HandsOff(Step(s, e)) && (Ran(s, t) ==> Ran(Step(s, e), t))
  {
    if s.worker.Some? {
      var w := s.worker.value;
      match w.cpu
      case Write(k, _) => AfterPublicationKeepsRan(w, k, t);
      case Marking(k, _) =>
        AfterPublicationKeepsRan(w, k, t);
        AfterPublicationKeepsRan(w.(safety := Some(OfSafety)), k, t);
      case _ =>
    }
  }

  lemma OperatorStepKeepsRan(s: State, e: Event, t: Task)
    requires HandsOff(s) && !IsWorkerEvent(e)
    ensures HandsOff(Step(s, e)) && (Ran(s, t) ==> Ran(Step(s, e), t))
  {
    if s.worker.Some? {
      assert Step(s, e).worker == s.worker;
    }
  }

  lemma StepKeepsRan(s: State, e: Event, t: Task)
    requires HandsOff(s)
    ensures HandsOff(Step(s, e))
    ensures Ran(s, t) && e != Close(t) && e != StopWorker ==> Ran(Step(s, e), t)
  {
    if e.PublishRead? || e.PublishWrite? || e.MarkShared? {
      PublicationStepKeepsRan(s, e, t);
    } else if !IsWorkerEvent(e) {
      OperatorStepKeepsRan(s, e, t);
    }
  }

  /** Whatever happens, its own failure included, short of its being counted out or the death of the process. */
  lemma {:induction false} RanUntilClosed(s: State, es: seq<Event>, t: Task)
    requires HandsOff(s) && Ran(s, t) && Close(t) !in es && StopWorker !in es
    ensures HandsOff(Run(s, es)) && Ran(Run(s, es), t)
  {
    if es != [] {
      var n := |es| - 1;
      assert es[n] in es && forall e | e in es[..n] :: e in es;
      RanUntilClosed(s, es[..n], t);
      StepKeepsRan(Run(s, es[..n]), es[n], t);
    }
  }

  /** The body of `t` is at work, and no step about to come is the end of it. */
  predicate AtWork(s: State, t: Task) {
    && s.worker.Some? && t in s.worker.value.tasks && s.worker.value.tasks[t] == Running
    && match s.worker.value.cpu
       case Admit(u) => u != t
       case Holding(u) => u != t
       case Publish(k) => !OfBody(k, t)
       case Write(k, _) => !OfBody(k, t)
       case Marking(k, _) => !OfBody(k, t)
       case _ => true
  }

  predicate OfBody(k: Cont, t: Task) {
    k == StartBody(t) || k == FailBody(t)
  }

  lemma AfterPublicationAtWork(s: State, w: Worker, k: Cont, t: Task)
    requires !OfBody(k, t) && t in w.tasks && w.tasks[t] == Running
    ensures AtWork(WithWorker(s, AfterPublished(w, k)), t) && AtWork(WithWorker(s, AfterMarked(w, k)), t)
  {
  }

  lemma PublicationKeepsAtWork(s: State, e: Event, t: Task)
    requires AtWork(s, t) && (e.PublishRead? || e.PublishWrite? || e.MarkShared?)
    ensures AtWork(Step(s, e), t)
  {
    var w := s.worker.value;
    match w.cpu
    case Write(k, _) => AfterPublicationAtWork(s, w, k, t);
    case Marking(k, _) =>
      AfterPublicationAtWork(s, w, k, t);
      AfterPublicationAtWork(s, w.(safety := Some(OfSafety)), k, t);
    case _ =>
  }

  lemma EntryKeepsAtWork(s: State, e: Event, t: Task)
    requires AtWork(s, t) && (e.RunEnter? || e.TakeShared? || e.ReadForAdmission?)
    ensures AtWork(Step(s, e), t)
  {
  }

  lemma EndKeepsAtWork(s: State, e: Event, t: Task)
    requires AtWork(s, t) && (e.Close? || e.Propagate? || e.LeaveRun?)
    ensures AtWork(Step(s, e), t)
  {
  }

  lemma StepKeepsAtWork(s: State, e: Event, t: Task)
    requires AtWork(s, t) && e != BodyReturns(t) && e != BodyRaises(t) && e != StopWorker
    ensures AtWork(Step(s, e), t)
  {
    if e.PublishRead? || e.PublishWrite? || e.MarkShared? {
      PublicationKeepsAtWork(s, e, t);
    } else if e.RunEnter? || e.TakeShared? || e.ReadForAdmission? {
      EntryKeepsAtWork(s, e, t);
    } else if e.Close? || e.Propagate? || e.LeaveRun? {
      EndKeepsAtWork(s, e, t);
    } else if !IsWorkerEvent(e) {
      assert Step(s, e).worker == s.worker;
    }
  }

  /** Nothing but its own end, or the death of the process, ends a body: it is not counted out before. */
  lemma {:induction false} AtWorkUntilEnded(s: State, es: seq<Event>, t: Task)
    requires AtWork(s, t) && BodyReturns(t) !in es && BodyRaises(t) !in es && StopWorker !in es
    ensures AtWork(Run(s, es), t)
  {
    if es != [] {
      var n := |es| - 1;
      assert es[n] in es && forall e | e in es[..n] :: e in es;
      AtWorkUntilEnded(s, es[..n], t);
      StepKeepsAtWork(Run(s, es[..n]), es[n], t);
    }
  }

  // ----- failures

  /** A step that fails: a lock, a read or a write that did not succeed, a body or `run` itself that raised. */
  predicate Fails(w: Worker, e: Event) {
    match e
    case TakeShared(ok) => w.cpu.Admit? && !ok
    case ReadForAdmission(ok) => w.cpu.Holding? && !ok
    case PublishRead(ok) => w.cpu.Publish? && !ok
    case PublishWrite(outcome) => w.cpu.Write? && outcome != Written
    case BodyRaises(t) => w.cpu == Loop && t in w.tasks && w.tasks[t] == Running
    case MarkUncertain => w.cpu == Loop
    case Propagate(raised) => w.cpu.Unwind? && raised == MaintenanceError
    case _ => false
  }

  /** Every one of them marks the process, and nothing else does. */
  lemma MarkedIffFailed(s: State, e: Event)
    requires s.worker.Some? && !s.worker.value.uncertain && Step(s, e).worker.Some?
    ensures Step(s, e).worker.value.uncertain <==> Fails(s.worker.value, e)
  {
  }

  // ----- the operator

  function BeginEvents(x: OperationId): seq<Event> {
    [Begin(x), WriteIntended, WriteHold]
  }

  /** `begin` over an open control and a live worker ends in a hold under its identifier, with a journal. */
  lemma BeginHolds(s: State, x: OperationId)
    requires s.operator == Idle && s.control.open && s.control.op != x && s.worker.Some?
    ensures Run(s, BeginEvents(x)) == s.(control := Control(false, x),
                                       journals := s.journals[x := Journal(s.worker.value.instance, None, Intended)])
  {
    RunThree(s, Begin(x), WriteIntended, WriteHold);
    var i := s.worker.value.instance;
    var s1 := Step(s, Begin(x));
    assert s1 == s.(operator := BeginJournal(x, i));
    var s2 := Step(s1, WriteIntended);
    assert s2 == s.(journals := s.journals[x := Journal(i, None, Intended)], operator := BeginHold(x));
  }

  /** It does nothing under a hold, under its own identifier, without a worker, or during another command. */
  lemma BeginIsRefused(s: State, x: OperationId)
    requires !s.control.open || s.control.op == x || s.worker == None || s.operator != Idle
    ensures Step(s, Begin(x)) == s
  {
  }

  /** What `verify-ack` and `finish` accept: the file of this very process, for this very window, with nothing left. */
  lemma CheckPassesIff(s: State)
    ensures Step(s, CheckQuiescent) != s <==>
      && s.operator.Ready? && s.ex && s.worker.Some? && s.ack.Some?
      && s.ack.value.instance == s.worker.value.instance && s.ack.value.op == s.operator.x
      && s.ack.value.quiescent && s.ack.value.inflight == 0
    ensures Step(s, CheckQuiescent) != s ==>
      var o := s.operator;
      Step(s, CheckQuiescent) == s.(operator := Drained(o.x, o.release, o.journal, Quiescent(s.ack.value.instance)))
  {
  }

  /** And without a live process: only one that this window's journal says has drained. */
  lemma StoppedPassesIff(s: State, i: Instance)
    ensures Step(s, CheckStopped(i)) != s <==> s.operator.Ready? && s.ex && s.worker == None && s.operator.journal.drained == Some(i)
  {
  }

  /** How a finish is answered before anything is checked. */
  lemma FinishReplyIff(s: State, x: OperationId)
    ensures FinishReplyTo(s, x) == Proceeds <==> x in s.journals && s.control == Control(false, x)
    ensures FinishReplyTo(s, x) == AlreadyFinished <==>
              x in s.journals && s.control == Control(true, x) && s.journals[x].result == Succeeded
  {
  }

  lemma VerifySteps(s: State, x: OperationId)
    requires CanFinish(s, x) && s.operator == Idle
    ensures Step(Step(Step(Step(Step(s, Finish(x, false)), CheckQuiescent), WriteDrained), WriteSucceeded), CommandEnds)
         == s.(journals := s.journals[x := s.journals[x].(drained := Some(s.worker.value.instance))])
  {
    var j, i := s.journals[x], s.worker.value.instance;
    var s1 := Step(s, Finish(x, false));
    assert s1 == s.(operator := Ready(x, false, j));
    var s2 := Step(s1, CheckQuiescent);
    assert s2 == s.(operator := Drained(x, false, j, Quiescent(i)));
    var s3 := Step(s2, WriteDrained);
    var j1 := j.(drained := Some(i));
    assert s3 == s.(journals := s.journals[x := j1], operator := Certified(x, false, j1, Quiescent(i)));
    assert Step(s3, WriteSucceeded) == s3;
  }

  /** `verify-ack` records the drained identity and leaves control held. */
  lemma VerifyRecords(s: State, x: OperationId)
    requires CanFinish(s, x) && s.operator == Idle
    ensures Run(s, [Finish(x, false), CheckQuiescent, WriteDrained, WriteSucceeded, CommandEnds])
         == s.(journals := s.journals[x := s.journals[x].(drained := Some(s.worker.value.instance))])
  {
    VerifySteps(s, x);
    RunFive(s, Finish(x, false), CheckQuiescent, WriteDrained, WriteSucceeded, CommandEnds);
  }

  lemma StoppedSteps(s: State, x: OperationId, i: Instance)
    requires s.ex && s.operator == Idle && s.control == Control(false, x) && s.worker == None
    requires x in s.journals && s.journals[x].drained == Some(i)
    ensures Step(Step(Step(Step(s, Finish(x, true)), CheckStopped(i)), WriteSucceeded), Reopen)
         == s.(control := Control(true, x), journals := s.journals[x := s.journals[x].(result := Succeeded)])
  {
    var j := s.journals[x];
    var s1 := Step(s, Finish(x, true));
    assert s1 == s.(operator := Ready(x, true, j));
    var s2 := Step(s1, CheckStopped(i));
    assert s2 == s.(operator := Certified(x, true, j, Stopped(i)));
    var s3 := Step(s2, WriteSucceeded);
    assert s3 == s.(journals := s.journals[x := j.(result := Succeeded)], operator := Release(x, Stopped(i)));
  }

  /** A worker drained before and stopped since can be released without an acknowledgement. */
  lemma StoppedIsReleased(s: State, x: OperationId, i: Instance)
    requires s.ex && s.operator == Idle && s.control == Control(false, x) && s.worker == None
    requires x in s.journals && s.journals[x].drained == Some(i)
    ensures Run(s, [Finish(x, true), CheckStopped(i), WriteSucceeded, Reopen])
         == s.(control := Control(true, x), journals := s.journals[x := s.journals[x].(result := Succeeded)])
  {
    StoppedSteps(s, x, i);
    RunFive(s, Finish(x, true), CheckStopped(i), WriteSucceeded, Reopen, Reopen);
  }

  /** The exclusive lease is had exactly when nobody holds a shared one, and given up exactly when the command is not between
      its check and its last write. */
  lemma ExclusiveIsTakenIff(s: State)
    ensures Step(s, TakeExclusive).ex <==> s.ex || s.leases == {}
    ensures !Step(s, DropExclusive).ex <==> !s.ex || !(s.operator.Drained? || s.operator.Certified? || s.operator.Release?)
  {
  }

  // ----- a whole maintenance window

  lemma IdleHasNoLease(s: State, boot: OperationId)
    requires Inv(s, boot) && s.worker.Some? && s.worker.value.cpu == Loop
    requires !s.worker.value.uncertain && s.worker.value.tasks == map[]
    ensures s.leases == {}
  {
    assert LeasesInv(s, s.worker.value);
    assert forall l :: l in s.leases ==> (l.OfTask? || l == OfSafety);
    assert forall t :: OfTask(t) !in s.leases;
  }

  lemma FinishesAfter(s: State, x: OperationId, taken: seq<Event>, finish: seq<Event>)
    requires s.operator == Idle && s.control == Control(false, x) && x in s.journals && LiveQuiescent(s, x)
    requires Run(s, taken) == s.(ex := true) && finish == FinishEvents(x)
    ensures Run(s, taken + finish) == FinishedState(s.(ex := true), x, s.worker.value.instance)
  {
    FinishCompletes(s.(ex := true), x);
    RunJoin(s, taken, finish);
  }

  /** Drained and without a lease, a held worker can be finished. */
  lemma DrainedFinishes(s: State, x: OperationId)
    requires s.operator == Idle && s.control == Control(false, x) && x in s.journals && s.leases == {} && LiveQuiescent(s, x)
    ensures var done := Run(s, [TakeExclusive] + FinishEvents(x));
      && done.control == Control(true, x) && done.operator == Idle && done.worker == s.worker && x in done.journals
      && done.journals[x] == s.journals[x].(drained := Some(s.worker.value.instance), result := Succeeded)
  {
    RunAppend(s, [], TakeExclusive);
    assert [] + [TakeExclusive] == [TakeExclusive] && Run(s, []) == s;
    FinishesAfter(s, x, [TakeExclusive], FinishEvents(x));
  }

  lemma WindowDrains(s: State, x: OperationId, t: Task, boot: OperationId)
    requires Inv(s, boot) && s.control == Control(false, x)
    requires s.worker.Some? && s.worker.value.cpu == Loop && !s.worker.value.uncertain
    requires s.worker.value.tasks == map[t := Running]
    ensures var ended := Run(s, EndEvents(t));
      && LiveQuiescent(ended, x) && ended.leases == {} && ended.control == s.control && ended.journals == s.journals
      && ended.operator == s.operator
      && ended.worker == Some(s.worker.value.(tasks := map[], inflight := 0))
  {
    var w := s.worker.value;
    assert w.safety == None by { assert LeasesInv(s, w); }
    assert w.inflight == 1 by { assert |w.tasks| == 1; }
    assert w.tasks - {t} == map[];
    ReturnEnds(s, t);
    RunKeepsInv(s, EndEvents(t), boot);
    IdleHasNoLease(Run(s, EndEvents(t)), boot);
  }

  /** With one operation running, a window begins, drains by itself as the body returns, and finishes: control is open under
      the window's identifier and the journal names the process that drained. */
  lemma WindowCompletes(s: State, x: OperationId, t: Task, boot: OperationId)
    requires Inv(s, boot) && s.operator == Idle && s.control.open && s.control.op != x
    requires s.worker.Some? && s.worker.value.cpu == Loop && !s.worker.value.uncertain
    requires s.worker.value.tasks == map[t := Running]
    ensures var done := Run(s, BeginEvents(x) + (EndEvents(t) + ([TakeExclusive] + FinishEvents(x))));
      && done.control == Control(true, x) && done.operator == Idle && x in done.journals
      && done.journals[x] == Journal(s.worker.value.instance, Some(s.worker.value.instance), Succeeded)
      && done.worker == Some(s.worker.value.(tasks := map[], inflight := 0))
  {
    BeginHolds(s, x);
    var held := Run(s, BeginEvents(x));
    RunKeepsInv(s, BeginEvents(x), boot);
    WindowDrains(held, x, t, boot);
    DrainedFinishes(Run(held, EndEvents(t)), x);
    RunJoin(s, BeginEvents(x), EndEvents(t) + ([TakeExclusive] + FinishEvents(x)));
    RunJoin(held, EndEvents(t), [TakeExclusive] + FinishEvents(x));
  }
}
