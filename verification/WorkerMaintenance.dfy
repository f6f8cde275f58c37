/**
  The coordinator as the object it is: fields updated in place by `mark_uncertain`, `publish_ack`
  and the synchronous halves of `run`.  Each method is proved to do exactly what the named events
  of the protocol do one after the other, when the operator does nothing in between.
*/
module WorkerMaintenance {
  import opened Base
  import opened MaintenanceProtocol

  /** The shared files and the admission lock. */
  class MaintenanceStore {
    var control: Control
    var ack: Option<Ack>
    var leases: set<Lease>
    var ex: bool

    constructor (control: Control, ex: bool)
      ensures this.control == control && this.ex == ex && ack == None && leases == {}
    {
      this.control, this.ex := control, ex;
      ack, leases := None, {};
    }
  }

  /** What the outside world answers to the accesses of one publication: reading the control, writing the file, and
      the shared lock at the mark of a failure and at the second mark most callers make. */
  datatype Answers = Answers(ackRead: bool, ackWrite: WriteOutcome, safety: bool, retry: bool)

  /** The same for the admission of one operation: the lock, the control, the mark if either failed, the publication
      that must succeed, and the one made in any refusal. */
  datatype Entry = Entry(lock: bool, control: bool, mark: bool, first: Answers, best: Answers)

  // ----- what one synchronous section does

  function Marked(s: State, w: Worker, granted: bool): State {
    var w' := w.(uncertain := true);
    if w.safety == None && w.inflight == 0 && granted && !s.ex
    then WithWorker(s, w'.(safety := Some(OfSafety))).(leases := s.leases + {OfSafety})
    else WithWorker(s, w')
  }

  predicate Succeeds(answers: Answers) {
    answers.ackRead && answers.ackWrite == Written
  }

  /** `publish_ack`. */
  function Published(s: State, w: Worker, answers: Answers): State {
    var s' := if answers.ackRead && answers.ackWrite != NotWritten then s.(ack := Some(NewAck(s.control, w))) else s;
    if Succeeds(answers) then s' else Marked(s', w, answers.safety)
  }

  /** `_publish_best_effort`. */
  function BestEffort(s: State, answers: Answers): State
    requires s.worker.Some?
  {
    var s' := Published(s, s.worker.value, answers);
    if Succeeds(answers) then s' else Marked(s', s'.worker.value, answers.retry)
  }

  function Left(s: State, t: Task): State
    requires s.worker.Some?
  {
    StepLeave(s, s.worker.value, t)
  }

  function Phased(s: State, t: Task, phase: Phase): State
    requires s.worker.Some?
  {
    WithWorker(s, s.worker.value.(tasks := s.worker.value.tasks[t := phase]))
  }

  /** From counting in to the call of the body, or to the drain. */
  function CountedIn(counted: State, t: Task, e: Entry): State
    requires counted.worker.Some?
  {
    var tried := BestEffort(counted, e.first);
    if Succeeds(e.first) then Phased(tried, t, Running) else Phased(BestEffort(tried, e.best), t, Draining(false))
  }

  /** `run` up to the call of its body, or to its end if it is refused; a body that is not called because the first
      publication failed leaves the operation to be drained. */
  function Entered(s: State, w: Worker, t: Task, e: Entry): State
    requires s.worker == Some(w)
  {
    if w.uncertain then BestEffort(s, e.best)
    else if !e.lock then BestEffort(Marked(s, w, e.mark), e.best)
    else if s.ex then BestEffort(s, e.best)
    else
      var held := s.(leases := s.leases + {OfTask(t)});
      if !e.control then Left(BestEffort(Marked(held, w, e.mark), e.best), t)
      else if !s.control.open then Left(BestEffort(held, e.best), t)
      else
        CountedIn(WithWorker(held, w.(inflight := w.inflight + 1, tasks := w.tasks[t := Admitting])), t, e)
  }

  // ----- which events of the protocol that is

  lemma {:induction false} RunConcat(s: State, xs: seq<Event>, ys: seq<Event>)
    ensures Run(s, xs + ys) == Run(Run(s, xs), ys)
  {
    if ys == [] {
      assert xs + ys == xs;
    } else {
      RunConcat(s, xs, ys[..|ys| - 1]);
      assert (xs + ys)[..|xs + ys| - 1] == xs + ys[..|ys| - 1];
    }
  }

  lemma RunThen(s: State, xs: seq<Event>, mid: State, ys: seq<Event>)
    requires Run(s, xs) == mid
    ensures Run(s, xs + ys) == Run(mid, ys)
  {
    RunConcat(s, xs, ys);
  }

  lemma RunOne(s: State, e: Event)
    ensures Run(s, [e]) == Step(s, e)
  {
    assert [e][..0] == [];
    assert Run(s, []) == s;
  }

  lemma RunTwo(s: State, a: Event, b: Event)
    ensures Run(s, [a, b]) == Step(Step(s, a), b)
  {
    assert [a, b][..1] == [a];
    RunOne(s, a);
  }

  lemma MarkedIsSteps(s: State, w: Worker, granted: bool)
    requires s.worker == Some(w) && w.cpu == Loop
    ensures Marked(s, w, granted) == Step(Step(s, MarkUncertain), MarkShared(granted))
  {
  }

  /** The events of a publication, whoever makes it. */
  function PublishEvents(answers: Answers, twice: bool): seq<Event> {
    [PublishRead(answers.ackRead)]
    + (if answers.ackRead then [PublishWrite(answers.ackWrite)] else [])
    + (if Succeeds(answers) then [] else [MarkShared(answers.safety)] + if twice then [MarkShared(answers.retry)] else [])
  }

  /** The state at another program counter. */
  function At(s: State, c: Cpu): State
    requires s.worker.Some?
  {
    WithWorker(s, s.worker.value.(cpu := c))
  }

  /** Up to the marks: the control was read and the file written, or one of the two failed. */
  lemma AccessSteps(s: State, k: Cont, answers: Answers)
    requires s.worker.Some? && s.worker.value.cpu == Publish(k)
    ensures var w := s.worker.value;
      var written := if answers.ackRead && answers.ackWrite != NotWritten then s.(ack := Some(NewAck(s.control, w))) else s;
      Run(s, [PublishRead(answers.ackRead)] + (if answers.ackRead then [PublishWrite(answers.ackWrite)] else []))
      == WithWorker(written, if Succeeds(answers) then AfterPublished(w.(cpu := Write(k, NewAck(s.control, w))), k) else MarkTwice(w, k))
  {
    var w := s.worker.value;
    var read := Step(s, PublishRead(answers.ackRead));
    RunOne(s, PublishRead(answers.ackRead));
    if answers.ackRead {
      assert read == WithWorker(s, w.(cpu := Write(k, NewAck(s.control, w))));
      RunTwo(s, PublishRead(true), PublishWrite(answers.ackWrite));
      assert [PublishRead(true)] + [PublishWrite(answers.ackWrite)] == [PublishRead(true), PublishWrite(answers.ackWrite)];
    } else {
      assert [PublishRead(false)] + [] == [PublishRead(false)];
    }
  }

  lemma MarkStep(s: State, w: Worker, k: Cont, again: bool, granted: bool)
    requires s.worker == Some(w) && w.cpu == Marking(k, again) && w.uncertain
    ensures var m := Marked(s, w, granted);
      Step(s, MarkShared(granted)) == WithWorker(m, AfterAttempt(m.worker.value, k, again))
  {
  }

  /** The two marks after a failed publication. */
  lemma TwoMarks(s: State, k: Cont, safety: bool, retry: bool)
    requires s.worker.Some? && s.worker.value.cpu == Marking(k, true) && s.worker.value.uncertain
    ensures var m1 := Marked(s, s.worker.value, safety); var m2 := Marked(m1, m1.worker.value, retry);
      Run(s, [MarkShared(safety), MarkShared(retry)]) == WithWorker(m2, AfterMarked(m2.worker.value, k))
  {
    RunTwo(s, MarkShared(safety), MarkShared(retry));
    MarkStep(s, s.worker.value, k, true, safety);
    var s1 := Step(s, MarkShared(safety));
    MarkStep(s1, s1.worker.value, k, false, retry);
    var m1 := Marked(s, s.worker.value, safety);
    MarkedAnywhere(m1, Marking(k, false), retry);
  }

  /** Marking does not look at the program counter. */
  lemma MarkedAnywhere(s: State, c: Cpu, granted: bool)
    requires s.worker.Some?
    ensures Marked(At(s, c), At(s, c).worker.value, granted) == At(Marked(s, s.worker.value, granted), c)
  {
  }

  /** A failed publication, accesses and marks, is the same at any program counter. */
  lemma FailedAnywhere(s: State, k: Cont, answers: Answers)
    requires s.worker.Some? && s.worker.value.cpu == Publish(k) && !Succeeds(answers)
    ensures var w := s.worker.value;
      var written := if answers.ackRead && answers.ackWrite != NotWritten then s.(ack := Some(NewAck(s.control, w))) else s;
      var s1 := WithWorker(written, w.(uncertain := true, cpu := Marking(k, true)));
      var m1 := Marked(s1, s1.worker.value, answers.safety); var m2 := Marked(m1, m1.worker.value, answers.retry);
      m2 == At(BestEffort(At(s, Loop), answers), Marking(k, true))
  {
    var w := s.worker.value;
    var written := if answers.ackRead && answers.ackWrite != NotWritten then s.(ack := Some(NewAck(s.control, w))) else s;
    var s0 := WithWorker(written, w.(uncertain := true, cpu := Loop));
    MarkedAnywhere(s0, Marking(k, true), answers.safety);
    var m1 := Marked(s0, s0.worker.value, answers.safety);
    MarkedAnywhere(m1, Marking(k, true), answers.retry);
    MarkedTwice(At(written, Loop), w.(cpu := Loop), answers.safety);
  }

  /** Nor at whether the process is marked already. */
  lemma MarkedTwice(s: State, w: Worker, granted: bool)
    requires s.worker.Some?
    ensures Marked(s, w, granted) == Marked(WithWorker(s, w.(uncertain := true)), w.(uncertain := true), granted)
  {
  }

  lemma FailedIsSteps(s: State, k: Cont, answers: Answers)
    requires s.worker.Some? && s.worker.value.cpu == Publish(k) && !k.Heartbeat? && !Succeeds(answers)
    ensures var b := BestEffort(At(s, Loop), answers);
      Run(s, PublishEvents(answers, true)) == WithWorker(b, AfterMarked(b.worker.value, k))
  {
    var access := [PublishRead(answers.ackRead)] + (if answers.ackRead then [PublishWrite(answers.ackWrite)] else []);
    var marks := [MarkShared(answers.safety), MarkShared(answers.retry)];
    assert PublishEvents(answers, true) == access + marks by {
      assert [MarkShared(answers.safety)] + [MarkShared(answers.retry)] == marks;
    }
    AccessSteps(s, k, answers);
    var s1 := Run(s, access);
    RunThen(s, access, s1, marks);
    TwoMarks(s1, k, answers.safety, answers.retry);
    FailedAnywhere(s, k, answers);
    AfterMarkedAnywhere(BestEffort(At(s, Loop), answers), k);
  }

  lemma AfterMarkedAnywhere(b: State, k: Cont)
    requires b.worker.Some? && !k.Heartbeat?
    ensures var m := At(b, Marking(k, true));
      WithWorker(m, AfterMarked(m.worker.value, k)) == WithWorker(b, AfterMarked(b.worker.value, k))
  {
  }

  /** A best-effort publication at any place of `run`. */
  lemma BestEffortIsSteps(s: State, k: Cont, answers: Answers)
    requires s.worker.Some? && s.worker.value.cpu == Publish(k) && !k.Heartbeat?
    ensures var b := BestEffort(At(s, Loop), answers);
      Run(s, PublishEvents(answers, true))
      == WithWorker(b, if Succeeds(answers) then AfterPublished(b.worker.value, k) else AfterMarked(b.worker.value, k))
  {
    if Succeeds(answers) {
      AccessSteps(s, k, answers);
      assert PublishEvents(answers, true) == [PublishRead(true)] + [PublishWrite(Written)];
    } else {
      FailedIsSteps(s, k, answers);
    }
  }

  /** Any other caller of `publish_ack`. */
  lemma PublishedIsSteps(s: State, w: Worker, answers: Answers)
    requires s.worker == Some(w) && w.cpu == Loop
    ensures Published(s, w, answers) == Run(Step(s, PublishRequest), PublishEvents(answers, false))
  {
    var s0 := At(s, Publish(Heartbeat));
    assert Step(s, PublishRequest) == s0;
    AccessSteps(s0, Heartbeat, answers);
    var access := [PublishRead(answers.ackRead)] + (if answers.ackRead then [PublishWrite(answers.ackWrite)] else []);
    if Succeeds(answers) {
      assert PublishEvents(answers, false) == access;
    } else {
      assert PublishEvents(answers, false) == access + [MarkShared(answers.safety)];
      var written := if answers.ackRead && answers.ackWrite != NotWritten then s.(ack := Some(NewAck(s.control, w))) else s;
      var s1 := WithWorker(written, MarkTwice(w, Heartbeat));
      RunThen(s0, access, s1, [MarkShared(answers.safety)]);
      RunOne(s1, MarkShared(answers.safety));
      OneMark(written, w, answers.safety);
    }
  }

  lemma OneMark(s: State, w: Worker, granted: bool)
    requires s.worker == Some(w) && w.cpu == Loop
    ensures Step(WithWorker(s, MarkTwice(w, Heartbeat)), MarkShared(granted)) == Marked(s, w, granted)
  {
  }

  /** What happens once `run` was entered: the events up to the refusal, or to the call of the body. */
  function EntryEvents(s: State, w: Worker, t: Task, e: Entry): seq<Event> {
    var refusal := PublishEvents(e.best, true) + [LeaveRun];
    if w.uncertain then [RunEnter(t)] + refusal
    else if !e.lock then [RunEnter(t), TakeShared(false)] + ([MarkShared(e.mark)] + refusal)
    else if s.ex then [RunEnter(t), TakeShared(true)] + refusal
    else if !e.control then [RunEnter(t), TakeShared(true), ReadForAdmission(false)] + ([MarkShared(e.mark)] + refusal)
    else if !s.control.open then [RunEnter(t), TakeShared(true), ReadForAdmission(true)] + refusal
    else [RunEnter(t), TakeShared(true), ReadForAdmission(true)]
         + (PublishEvents(e.first, true) + if Succeeds(e.first) then [] else PublishEvents(e.best, true))
  }

  /** A refusal, from the handler on. */
  lemma RefusalIsSteps(s: State, t: Task, answers: Answers)
    requires s.worker.Some? && s.worker.value.cpu == Publish(Refused(t))
    ensures Run(s, PublishEvents(answers, true) + [LeaveRun]) == Left(BestEffort(At(s, Loop), answers), t)
  {
    var b := BestEffort(At(s, Loop), answers);
    BestEffortIsSteps(s, Refused(t), answers);
    BestEffortKeepsLeases(At(s, Loop), answers);
    RunThen(s, PublishEvents(answers, true), At(b, Leave(t)), [LeaveRun]);
    RunOne(At(b, Leave(t)), LeaveRun);
    LeftFrom(b, t);
  }

  lemma LeftFrom(b: State, t: Task)
    requires b.worker.Some? && b.worker.value.cpu == Loop
    ensures Step(At(b, Leave(t)), LeaveRun) == Left(b, t)
  {
  }

  /** The same after an error of `run` itself, which is marked first. */
  lemma AbortIsSteps(s: State, t: Task, mark: bool, answers: Answers)
    requires s.worker.Some? && s.worker.value.cpu == Marking(Aborted(t), false) && s.worker.value.uncertain
    ensures var m := Marked(At(s, Loop), s.worker.value.(cpu := Loop), mark);
      Run(s, [MarkShared(mark)] + (PublishEvents(answers, true) + [LeaveRun])) == Left(BestEffort(m, answers), t)
  {
    var w := s.worker.value;
    var m := Marked(At(s, Loop), w.(cpu := Loop), mark);
    MarkStep(s, w, Aborted(t), false, mark);
    RunOne(s, MarkShared(mark));
    RunConcat(s, [MarkShared(mark)], PublishEvents(answers, true) + [LeaveRun]);
    var s1 := Step(s, MarkShared(mark));
    assert s1 == At(m, Publish(Refused(t)));
    assert At(s1, Loop) == m;
    RefusalIsSteps(s1, t, answers);
  }

  lemma BestEffortKeepsLeases(s: State, answers: Answers)
    requires s.worker.Some?
    ensures var b := BestEffort(s, answers);
      b.worker.Some? && b.worker.value.cpu == s.worker.value.cpu && b.worker.value.tasks == s.worker.value.tasks
      && forall t :: OfTask(t) in b.leases <==> OfTask(t) in s.leases
  {
  }

  /** The admission path of `run`, refused or not, is these accesses to the shared state, one after another. */
  lemma EnteredIsSteps(s: State, w: Worker, t: Task, e: Entry)
    requires s.worker == Some(w) && w.cpu == Loop && t !in w.tasks && OfTask(t) !in s.leases
    ensures Entered(s, w, t, e) == Run(s, EntryEvents(s, w, t, e))
  {
    if w.uncertain || !e.lock || s.ex {
      UnleasedIsSteps(s, w, t, e);
    } else if !e.control || !s.control.open {
      ClosedIsSteps(s, w, t, e);
    } else {
      OpenIsSteps(s, w, t, e);
    }
  }

  lemma UnleasedIsSteps(s: State, w: Worker, t: Task, e: Entry)
    requires s.worker == Some(w) && w.cpu == Loop && t !in w.tasks && OfTask(t) !in s.leases
    requires w.uncertain || !e.lock || s.ex
    ensures Entered(s, w, t, e) == Run(s, EntryEvents(s, w, t, e))
  {
    if w.uncertain {
      MarkedEntryIsSteps(s, w, t, e);
    } else if !e.lock {
      LocklessEntryIsSteps(s, w, t, e);
    } else {
      HeldEntryIsSteps(s, w, t, e);
    }
  }

  lemma MarkedEntryIsSteps(s: State, w: Worker, t: Task, e: Entry)
    requires s.worker == Some(w) && w.cpu == Loop && t !in w.tasks && OfTask(t) !in s.leases && w.uncertain
    ensures Entered(s, w, t, e) == Run(s, EntryEvents(s, w, t, e))
  {
    RunConcat(s, [RunEnter(t)], PublishEvents(e.best, true) + [LeaveRun]);
    RunOne(s, RunEnter(t));
    var s1 := At(s, Publish(Refused(t)));
    assert At(s1, Loop) == s;
    RefusalIsSteps(s1, t, e.best);
    BestEffortKeepsLeases(s, e.best);
  }

  lemma LocklessEntryIsSteps(s: State, w: Worker, t: Task, e: Entry)
    requires s.worker == Some(w) && w.cpu == Loop && t !in w.tasks && OfTask(t) !in s.leases && !w.uncertain && !e.lock
    ensures Entered(s, w, t, e) == Run(s, EntryEvents(s, w, t, e))
  {
    var s2 := WithWorker(s, MarkAndContinue(w.(cpu := Admit(t)), Aborted(t)));
    LockFails(s, w, t);
    RunThen(s, [RunEnter(t), TakeShared(false)], s2, [MarkShared(e.mark)] + (PublishEvents(e.best, true) + [LeaveRun]));
    AbortIsSteps(s2, t, e.mark, e.best);
    MarkedTwice(s, w, e.mark);
    var m := Marked(s, w, e.mark);
    BestEffortKeepsLeases(m, e.best);
    LeftUnleased(BestEffort(m, e.best), t);
  }

  lemma LockFails(s: State, w: Worker, t: Task)
    requires s.worker == Some(w) && w.cpu == Loop && t !in w.tasks && OfTask(t) !in s.leases && !w.uncertain
    ensures Run(s, [RunEnter(t), TakeShared(false)]) == WithWorker(s, MarkAndContinue(w.(cpu := Admit(t)), Aborted(t)))
  {
    RunTwo(s, RunEnter(t), TakeShared(false));
    assert Step(s, RunEnter(t)) == At(s, Admit(t));
  }

  lemma LeftUnleased(b: State, t: Task)
    requires b.worker.Some? && b.worker.value.cpu == Loop && OfTask(t) !in b.leases
    ensures Left(b, t) == b
  {
  }

  lemma HeldEntryIsSteps(s: State, w: Worker, t: Task, e: Entry)
    requires s.worker == Some(w) && w.cpu == Loop && t !in w.tasks && OfTask(t) !in s.leases && !w.uncertain && e.lock && s.ex
    ensures Entered(s, w, t, e) == Run(s, EntryEvents(s, w, t, e))
  {
    RunConcat(s, [RunEnter(t), TakeShared(true)], PublishEvents(e.best, true) + [LeaveRun]);
    RunTwo(s, RunEnter(t), TakeShared(true));
    assert Step(s, RunEnter(t)) == At(s, Admit(t));
    var s2 := At(s, Publish(Refused(t)));
    assert Step(At(s, Admit(t)), TakeShared(true)) == s2 && At(s2, Loop) == s;
    RefusalIsSteps(s2, t, e.best);
    BestEffortKeepsLeases(s, e.best);
  }

  /** The lease was taken. */
  lemma LeasedIsSteps(s: State, w: Worker, t: Task, ok: bool)
    requires s.worker == Some(w) && w.cpu == Loop && t !in w.tasks && OfTask(t) !in s.leases && !w.uncertain && !s.ex
    ensures var held := At(s, Holding(t)).(leases := s.leases + {OfTask(t)});
      Run(s, [RunEnter(t), TakeShared(true), ReadForAdmission(ok)]) == Step(held, ReadForAdmission(ok))
  {
    RunConcat(s, [RunEnter(t), TakeShared(true)], [ReadForAdmission(ok)]);
    assert [RunEnter(t), TakeShared(true)] + [ReadForAdmission(ok)] == [RunEnter(t), TakeShared(true), ReadForAdmission(ok)];
    RunTwo(s, RunEnter(t), TakeShared(true));
    assert Step(s, RunEnter(t)) == At(s, Admit(t));
    var held := At(s, Holding(t)).(leases := s.leases + {OfTask(t)});
    assert Step(At(s, Admit(t)), TakeShared(true)) == held;
    RunOne(held, ReadForAdmission(ok));
  }

  lemma ClosedIsSteps(s: State, w: Worker, t: Task, e: Entry)
    requires s.worker == Some(w) && w.cpu == Loop && t !in w.tasks && OfTask(t) !in s.leases
    requires !w.uncertain && e.lock && !s.ex && (!e.control || !s.control.open)
    ensures Entered(s, w, t, e) == Run(s, EntryEvents(s, w, t, e))
  {
    var refusal := PublishEvents(e.best, true) + [LeaveRun];
    var held := s.(leases := s.leases + {OfTask(t)});
    if !e.control {
      var s3 := WithWorker(held, MarkAndContinue(w.(cpu := Holding(t)), Aborted(t)));
      ControlFails(s, w, t);
      RunThen(s, [RunEnter(t), TakeShared(true), ReadForAdmission(false)], s3, [MarkShared(e.mark)] + refusal);
      AbortIsSteps(s3, t, e.mark, e.best);
      MarkedTwice(held, w, e.mark);
    } else {
      var s3 := At(held, Publish(Refused(t)));
      ControlIsHold(s, w, t);
      RunThen(s, [RunEnter(t), TakeShared(true), ReadForAdmission(true)], s3, refusal);
      assert At(s3, Loop) == held;
      RefusalIsSteps(s3, t, e.best);
    }
  }

  lemma ControlFails(s: State, w: Worker, t: Task)
    requires s.worker == Some(w) && w.cpu == Loop && t !in w.tasks && OfTask(t) !in s.leases && !w.uncertain && !s.ex
    ensures Run(s, [RunEnter(t), TakeShared(true), ReadForAdmission(false)])
         == WithWorker(s.(leases := s.leases + {OfTask(t)}), MarkAndContinue(w.(cpu := Holding(t)), Aborted(t)))
  {
    LeasedIsSteps(s, w, t, false);
  }

  lemma ControlIsHold(s: State, w: Worker, t: Task)
    requires s.worker == Some(w) && w.cpu == Loop && t !in w.tasks && OfTask(t) !in s.leases && !w.uncertain && !s.ex && !s.control.open
    ensures Run(s, [RunEnter(t), TakeShared(true), ReadForAdmission(true)]) == At(s.(leases := s.leases + {OfTask(t)}), Publish(Refused(t)))
  {
    LeasedIsSteps(s, w, t, true);
  }

  lemma OpenIsSteps(s: State, w: Worker, t: Task, e: Entry)
    requires s.worker == Some(w) && w.cpu == Loop && t !in w.tasks && OfTask(t) !in s.leases
    requires !w.uncertain && e.lock && !s.ex && e.control && s.control.open
    ensures Entered(s, w, t, e) == Run(s, EntryEvents(s, w, t, e))
  {
    var counted := Counted(s, w, t);
    var s3 := At(counted, Publish(StartBody(t)));
    CountedAfterThree(s, w, t);
    var rest := if Succeeds(e.first) then [] else PublishEvents(e.best, true);
    RunThen(s, [RunEnter(t), TakeShared(true), ReadForAdmission(true)], s3, PublishEvents(e.first, true) + rest);
    CountedIsSteps(counted, t, e);
  }

  function Counted(s: State, w: Worker, t: Task): State {
    WithWorker(s.(leases := s.leases + {OfTask(t)}), w.(inflight := w.inflight + 1, tasks := w.tasks[t := Admitting]))
  }

  lemma CountedAfterThree(s: State, w: Worker, t: Task)
    requires s.worker == Some(w) && w.cpu == Loop && t !in w.tasks && OfTask(t) !in s.leases && !w.uncertain && !s.ex && s.control.open
    ensures Run(s, [RunEnter(t), TakeShared(true), ReadForAdmission(true)]) == At(Counted(s, w, t), Publish(StartBody(t)))
  {
    LeasedIsSteps(s, w, t, true);
    var held := At(s, Holding(t)).(leases := s.leases + {OfTask(t)});
    assert Step(held, ReadForAdmission(true)) == At(Counted(s, w, t), Publish(StartBody(t)));
  }

  /** Counted in, up to the call of the body or to the drain. */
  lemma CountedIsSteps(counted: State, t: Task, e: Entry)
    requires counted.worker.Some? && counted.worker.value.cpu == Loop
    requires t in counted.worker.value.tasks && counted.worker.value.tasks[t] == Admitting
    ensures var s3 := At(counted, Publish(StartBody(t)));
      var rest := if Succeeds(e.first) then [] else PublishEvents(e.best, true);
      var tried := BestEffort(counted, e.first);
      Run(s3, PublishEvents(e.first, true) + rest) ==
      if Succeeds(e.first) then Phased(tried, t, Running) else Phased(BestEffort(tried, e.best), t, Draining(false))
  {
    var s3 := At(counted, Publish(StartBody(t)));
    assert At(s3, Loop) == counted;
    BestEffortIsSteps(s3, StartBody(t), e.first);
    BestEffortKeepsLeases(counted, e.first);
    var tried := BestEffort(counted, e.first);
    if Succeeds(e.first) {
      assert PublishEvents(e.first, true) + [] == PublishEvents(e.first, true);
    } else {
      var s4 := At(tried, Publish(FailBody(t)));
      RunThen(s3, PublishEvents(e.first, true), s4, PublishEvents(e.best, true));
      DrainedIsSteps(tried, t, e.best);
    }
  }

  lemma DrainedIsSteps(tried: State, t: Task, best: Answers)
    requires tried.worker.Some? && tried.worker.value.cpu == Loop
    requires t in tried.worker.value.tasks && tried.worker.value.tasks[t] == Admitting
    ensures Run(At(tried, Publish(FailBody(t))), PublishEvents(best, true)) == Phased(BestEffort(tried, best), t, Draining(false))
  {
    var s4 := At(tried, Publish(FailBody(t)));
    assert At(s4, Loop) == tried;
    BestEffortIsSteps(s4, FailBody(t), best);
    BestEffortKeepsLeases(tried, best);
  }

  lemma SetTwice(tasks: map<Task, Phase>, t: Task, a: Phase, b: Phase)
    ensures tasks[t := a][t := b] == tasks[t := b]
  {
  }

  class Coordinator {
    const store: MaintenanceStore
    const identity: Instance
    var inflight: int
    var uncertain: bool
    var safetyLease: Option<Lease>
    var tasks: map<Task, Phase>

    constructor (store: MaintenanceStore, identity: Instance)
      ensures this.store == store && this.identity == identity
      ensures inflight == 0 && !uncertain && safetyLease == None && tasks == map[]
    {
      this.store, this.identity := store, identity;
      inflight, uncertain, safetyLease, tasks := 0, false, None, map[];
    }

    ghost function Self(c: Cpu): Worker
      reads this
    {
      Worker(identity, tasks, inflight, uncertain, safetyLease, c)
    }

    /** The protocol state this object stands for, at program counter `c`; `rest` supplies the operator's part. */
    ghost function Here(c: Cpu, rest: State): State
      reads this, store
    {
      rest.(control := store.control, ack := store.ack, leases := store.leases, ex := store.ex, worker := Some(Self(c)))
    }

    method MarkUncertain(granted: bool, ghost rest: State)
      modifies this`uncertain, this`safetyLease, store`leases
      ensures Here(Loop, rest) == Marked(old(Here(Loop, rest)), old(Self(Loop)), granted)
      ensures uncertain && store.ack == old(store.ack)
      ensures safetyLease.Some? <==> old(safetyLease).Some? || (inflight == 0 && granted && !store.ex)
    {
      uncertain := true;
      if safetyLease == None && inflight == 0 {
        if granted && !store.ex {
          store.leases := store.leases + {OfSafety};
          safetyLease := Some(OfSafety);
        }
      }
    }

    /** The error of a failed call is the result `false`. */
    method PublishAck(answers: Answers, ghost rest: State) returns (ok: bool)
      modifies this`uncertain, this`safetyLease, store`leases, store`ack
      ensures ok <==> answers.ackRead && answers.ackWrite == Written
      ensures Here(Loop, rest) == Published(old(Here(Loop, rest)), old(Self(Loop)), answers)
      ensures ok ==>
        && store.ack.Some? && store.ack.value.op == store.control.op
        && store.ack.value.instance == identity && store.ack.value.inflight == inflight
        && (store.ack.value.quiescent <==> !store.control.open && inflight == 0 && !old(uncertain))
      ensures uncertain <==> old(uncertain) || !ok
    {
      if answers.ackRead {
        var quiescent := !store.control.open && inflight == 0 && !uncertain;
        var a := Ack(store.control.op, identity, quiescent, inflight);
        if answers.ackWrite != NotWritten {
          store.ack := Some(a);
        }
        if answers.ackWrite == Written {
          return true;
        }
      }
      MarkUncertain(answers.safety, rest);
      return false;
    }

    /** A publication whose failure the caller marks once more. */
    method PublishBestEffort(answers: Answers, ghost rest: State) returns (ok: bool)
      modifies this`uncertain, this`safetyLease, store`leases, store`ack
      ensures ok <==> answers.ackRead && answers.ackWrite == Written
      ensures Here(Loop, rest) == BestEffort(old(Here(Loop, rest)), answers)
      ensures uncertain <==> old(uncertain) || !ok
      ensures old(store.leases) <= store.leases <= old(store.leases) + {OfSafety}
      ensures ok ==> store.ack.Some? && store.ack.value.instance == identity
                     && (store.ack.value.quiescent <==> !store.control.open && inflight == 0 && !uncertain)
    {
      ok := PublishAck(answers, rest);
      if !ok {
        MarkUncertain(answers.retry, rest);
      }
    }

    /** `run` up to the call of the body, which is called exactly when the result is true, or to the refusal. */
    method Enter(t: Task, e: Entry, ghost rest: State) returns (admitted: bool)
      requires t !in tasks && OfTask(t) !in store.leases
      modifies this, store`leases, store`ack
      ensures admitted <==>
        && !old(uncertain) && e.lock && !old(store.ex) && e.control && old(store.control).open
        && e.first.ackRead && e.first.ackWrite == Written
      ensures Here(Loop, rest) == Entered(old(Here(Loop, rest)), old(Self(Loop)), t, e)
      ensures admitted ==>
        && tasks == old(tasks)[t := Running] && inflight == old(inflight) + 1 && OfTask(t) in store.leases
        && (inflight != 0 ==> store.ack.Some? && store.ack.value.instance == identity && !store.ack.value.quiescent)
      ensures !admitted ==>
        || (tasks == old(tasks) && inflight == old(inflight) && (OfTask(t) in store.leases ==> safetyLease == Some(OfTask(t))))
        || (tasks == old(tasks)[t := Draining(false)] && inflight == old(inflight) + 1 && OfTask(t) in store.leases && uncertain)
    {
      if uncertain {
        var _ := PublishBestEffort(e.best, rest);
        return false;
      }
      if !e.lock {
        MarkUncertain(e.mark, rest);
        var _ := PublishBestEffort(e.best, rest);
        return false;
      }
      if store.ex {
        var _ := PublishBestEffort(e.best, rest);
        return false;
      }
      store.leases := store.leases + {OfTask(t)};
      if !e.control {
        MarkUncertain(e.mark, rest);
        var _ := PublishBestEffort(e.best, rest);
        Leave(t, rest);
        return false;
      }
      if !store.control.open {
        var _ := PublishBestEffort(e.best, rest);
        Leave(t, rest);
        return false;
      }
      inflight := inflight + 1;
      tasks := tasks[t := Admitting];
      SetTwice(old(tasks), t, Admitting, Running);
      SetTwice(old(tasks), t, Admitting, Draining(false));
      admitted := Start(t, e, rest);
    }

    /** The publication that must succeed before the body is called. */
    method Start(t: Task, e: Entry, ghost rest: State) returns (started: bool)
      requires t in tasks
      modifies this`tasks, this`uncertain, this`safetyLease, store`leases, store`ack
      ensures started <==> e.first.ackRead && e.first.ackWrite == Written
      ensures Here(Loop, rest) == CountedIn(old(Here(Loop, rest)), t, e)
      ensures tasks == old(tasks)[t := if started then Running else Draining(false)]
      ensures old(store.leases) <= store.leases && (uncertain <==> old(uncertain) || !started)
      ensures started && inflight != 0 ==> store.ack.Some? && store.ack.value.instance == identity && !store.ack.value.quiescent
    {
      started := PublishBestEffort(e.first, rest);
      if started {
        tasks := tasks[t := Running];
      } else {
        var _ := PublishBestEffort(e.best, rest);
        tasks := tasks[t := Draining(false)];
      }
    }

    /** The inner `finally` after the auxiliaries have been joined: count out, retain the lease if unsafe. */
    method Close(t: Task, ghost rest: State)
      requires t in tasks && tasks[t].Draining?
      modifies this
      ensures Here(Publish(Closing(t)), rest) == Step(old(Here(Loop, rest)), Event.Close(t))
      ensures t !in tasks && inflight == old(inflight) - 1 && (uncertain ==> safetyLease.Some?)
    {
      tasks := tasks - {t};
      inflight := inflight - 1;
      if uncertain && safetyLease == None {
        safetyLease := Some(OfTask(t));
      }
    }

    /** The outermost `finally`: keep the lease if it is the safety lease, give it back otherwise. */
    method Leave(t: Task, ghost rest: State)
      modifies this`safetyLease, store`leases
      ensures Here(Loop, rest) == Step(old(Here(Cpu.Leave(t), rest)), LeaveRun)
      ensures Here(Loop, rest) == Left(old(Here(Loop, rest)), t)
      ensures OfTask(t) in store.leases <==> OfTask(t) in old(store.leases) && safetyLease == Some(OfTask(t))
      ensures OfTask(t) in old(store.leases) && uncertain ==> safetyLease.Some?
    {
      if OfTask(t) in store.leases {
        if uncertain && safetyLease == None {
          safetyLease := Some(OfTask(t));
        }
        if safetyLease != Some(OfTask(t)) {
          store.leases := store.leases - {OfTask(t)};
        }
      }
    }
  }
}
