/**
  The worker maintenance protocol as one state machine: a worker process that admits
  operations under a shared lease and publishes an acknowledgement file, and a root
  operator that writes journals, takes the exclusive lease, checks the acknowledgement
  and reopens admission.

  The worker runs on one event loop, so its own code is interleaved only at an `await`.
  The operator is another process: it may act between any two file or lock accesses of
  the worker.  `Cpu` is therefore the program counter of the synchronous section the
  worker is in, and each event below performs at most one access to the shared state.
*/
module MaintenanceProtocol {
  import opened Base

  type OperationId = nat
  type Task = nat      // one call of `run`
  type Instance = nat  // one worker process; the nonce is never reused

  datatype Control = Control(open: bool, op: OperationId)

  datatype Ack = Ack(op: OperationId, instance: Instance, quiescent: bool, inflight: int)

  datatype Lease = OfTask(task: Task) | OfSafety

  /** `ran`: the body was called, and its auxiliaries may still be at work. */
  datatype Phase = Admitting | Running | Draining(ran: bool)

  /** Where the synchronous section goes on after a publication has ended. */
  datatype Cont =
    | StartBody(task: Task)  // the publication that must succeed before the body may run
    | FailBody(task: Task)   // best effort, after the body raised
    | Closing(task: Task)    // best effort, after the operation was counted out
    | Aborted(task: Task)    // an error of `run` itself, still to be marked
    | Refused(task: Task)    // best effort, in the outermost handlers
    | Heartbeat              // any other caller of `publish_ack` or `mark_uncertain`

  datatype Cpu =
    | Loop                              // the event loop may schedule any task
    | Admit(task: Task)                 // about to take the shared lease
    | Holding(task: Task)               // shared lease held, about to read the control
    | Publish(k: Cont)                  // about to read the control for an acknowledgement
    | Write(k: Cont, pending: Ack)      // about to write that acknowledgement
    | Marking(k: Cont, again: bool)     // flag set, about to try for a safety lease, once or twice
    | Unwind(task: Task)                // leaving the inner `finally`
    | Leave(task: Task)                 // about to run the outermost `finally`

  datatype Worker = Worker(
    instance: Instance,
    tasks: map<Task, Phase>,
    inflight: int,
    uncertain: bool,
    safety: Option<Lease>,
    cpu: Cpu)

  datatype JournalResult = Intended | Succeeded

  datatype Journal = Journal(initial: Instance, drained: Option<Instance>, result: JournalResult)

  datatype Certificate = Quiescent(instance: Instance) | Stopped(instance: Instance)

  /** The operator command in progress; the global lock admits one at a time. */
  datatype Operator =
    | Idle
    | BeginJournal(x: OperationId, initial: Instance)
    | BeginHold(x: OperationId)
    | Ready(x: OperationId, release: bool, journal: Journal)
    | Drained(x: OperationId, release: bool, journal: Journal, cert: Certificate)
    | Certified(x: OperationId, release: bool, journal: Journal, cert: Certificate)
    | Release(x: OperationId, cert: Certificate)

  datatype State = State(
    control: Control,
    ack: Option<Ack>,
    journals: map<OperationId, Journal>,
    leases: set<Lease>,
    ex: bool,
    worker: Option<Worker>,
    nextInstance: Instance,
    operator: Operator)

  datatype WriteOutcome = Written | NotWritten | WrittenThenFailed

  datatype Raised = Nothing | AdmissionClosed | MaintenanceError

  datatype Event =
    // worker
    | RunEnter(task: Task)
    | TakeShared(ok: bool)
    | ReadForAdmission(ok: bool)
    | PublishRead(ok: bool)
    | PublishWrite(outcome: WriteOutcome)
    | MarkShared(granted: bool)
    | BodyReturns(task: Task)
    | BodyRaises(task: Task)
    | MarkUncertain
    | Close(task: Task)
    | Propagate(raised: Raised)
    | LeaveRun
    | PublishRequest
    | StopWorker
    | StartWorker
    // operator
    | TakeExclusive
    | DropExclusive
    | Begin(x: OperationId)
    | WriteIntended
    | WriteHold
    | Finish(x: OperationId, release: bool)
    | CheckQuiescent
    | CheckStopped(expected: Instance)
    | WriteDrained
    | WriteSucceeded
    | Reopen
    | CommandEnds

  // ----- worker steps

  function AfterPublished(w: Worker, k: Cont): Worker {
    match k
    case StartBody(t) => w.(tasks := w.tasks[t := Running], cpu := Loop)
    case FailBody(t) => w.(tasks := w.tasks[t := Draining(t in w.tasks && w.tasks[t] == Running)], cpu := Loop)
    case Closing(t) => w.(cpu := Unwind(t))
    case Aborted(t) => w.(cpu := Publish(Refused(t)))
    case Refused(t) => w.(cpu := Leave(t))
    case Heartbeat => w.(cpu := Loop)
  }

  /** A failed publication before the body is an exception inside `run`; elsewhere it is swallowed. */
  function AfterMarked(w: Worker, k: Cont): Worker {
    match k
    case StartBody(t) => w.(cpu := Publish(FailBody(t)))
    case _ => AfterPublished(w, k)
  }

  function MarkAndContinue(w: Worker, k: Cont): Worker {
    w.(uncertain := true, cpu := Marking(k, false))
  }

  /** A failed publication marks the process itself, and all callers but the outside ones then mark it again. */
  function MarkTwice(w: Worker, k: Cont): Worker {
    w.(uncertain := true, cpu := Marking(k, !k.Heartbeat?))
  }

  function NewAck(control: Control, w: Worker): Ack {
    Ack(control.op, w.instance, !control.open && w.inflight == 0 && !w.uncertain, w.inflight)
  }

  function WithWorker(s: State, w: Worker): State {
    s.(worker := Some(w))
  }

  function StepTakeShared(s: State, w: Worker, t: Task, ok: bool): State {
    if !ok then WithWorker(s, MarkAndContinue(w, Aborted(t)))
    else if s.ex then WithWorker(s, w.(cpu := Publish(Refused(t))))
    else WithWorker(s, w.(cpu := Holding(t))).(leases := s.leases + {OfTask(t)})
  }

  function StepReadForAdmission(s: State, w: Worker, t: Task, ok: bool): State {
    if !ok then WithWorker(s, MarkAndContinue(w, Aborted(t)))
    else if !s.control.open then WithWorker(s, w.(cpu := Publish(Refused(t))))
    else WithWorker(s, w.(inflight := w.inflight + 1, tasks := w.tasks[t := Admitting], cpu := Publish(StartBody(t))))
  }

  function StepPublishWrite(s: State, w: Worker, k: Cont, a: Ack, outcome: WriteOutcome): State {
    var ack := if outcome == NotWritten then s.ack else Some(a);
    var w' := if outcome == Written then AfterPublished(w, k) else MarkTwice(w, k);
    WithWorker(s, w').(ack := ack)
  }

  function AfterAttempt(w: Worker, k: Cont, again: bool): Worker {
    if again then w.(cpu := Marking(k, false)) else AfterMarked(w, k)
  }

  function StepMarkShared(s: State, w: Worker, k: Cont, again: bool, granted: bool): State {
    if w.safety == None && w.inflight == 0 && granted && !s.ex then
      WithWorker(s, AfterAttempt(w.(safety := Some(OfSafety)), k, again)).(leases := s.leases + {OfSafety})
    else
      WithWorker(s, AfterAttempt(w, k, again))
  }

  function Retained(w: Worker, l: Lease): Worker {
    if w.uncertain && w.safety == None then w.(safety := Some(l)) else w
  }

  function StepClose(s: State, w: Worker, t: Task): State {
    var w' := Retained(w.(tasks := w.tasks - {t}, inflight := w.inflight - 1), OfTask(t));
    WithWorker(s, w'.(cpu := Publish(Closing(t))))
  }

  function StepLeave(s: State, w: Worker, t: Task): State {
    if OfTask(t) !in s.leases then WithWorker(s, w.(cpu := Loop)) else
    var w' := Retained(w, OfTask(t)).(cpu := Loop);
    if w'.safety == Some(OfTask(t)) then WithWorker(s, w')
    else WithWorker(s, w').(leases := s.leases - {OfTask(t)})
  }

  function StepPropagate(s: State, w: Worker, t: Task, raised: Raised): State {
    match raised
    case Nothing => WithWorker(s, w.(cpu := Leave(t)))
    case AdmissionClosed => WithWorker(s, w.(cpu := Publish(Refused(t))))
    case MaintenanceError => WithWorker(s, MarkAndContinue(w, Aborted(t)))
  }

  /** One step of a live worker; an event that is not enabled changes nothing. */
  function WorkerStep(s: State, w: Worker, e: Event): State {
    match e
    case RunEnter(t) =>
      if w.cpu != Loop || t in w.tasks || OfTask(t) in s.leases then s
      else WithWorker(s, w.(cpu := if w.uncertain then Publish(Refused(t)) else Admit(t)))
    case TakeShared(ok) =>
      if w.cpu.Admit? then StepTakeShared(s, w, w.cpu.task, ok) else s
    case ReadForAdmission(ok) =>
      if w.cpu.Holding? then StepReadForAdmission(s, w, w.cpu.task, ok) else s
    case PublishRequest =>
      if w.cpu == Loop then WithWorker(s, w.(cpu := Publish(Heartbeat))) else s
    case PublishRead(ok) =>
      if !w.cpu.Publish? then s
      else if ok then WithWorker(s, w.(cpu := Write(w.cpu.k, NewAck(s.control, w))))
      else WithWorker(s, MarkTwice(w, w.cpu.k))
    case PublishWrite(outcome) =>
      if w.cpu.Write? then StepPublishWrite(s, w, w.cpu.k, w.cpu.pending, outcome) else s
    case MarkShared(granted) =>
      if w.cpu.Marking? then StepMarkShared(s, w, w.cpu.k, w.cpu.again, granted) else s
    case MarkUncertain =>
      if w.cpu == Loop then WithWorker(s, MarkAndContinue(w, Heartbeat)) else s
    case BodyReturns(t) =>
      if w.cpu == Loop && t in w.tasks && w.tasks[t] == Running
      then WithWorker(s, w.(tasks := w.tasks[t := Draining(true)])) else s
    case BodyRaises(t) =>
      if w.cpu == Loop && t in w.tasks && w.tasks[t] == Running
      then WithWorker(s, MarkAndContinue(w, StartBody(t))) else s
    case Close(t) =>
      if w.cpu == Loop && t in w.tasks && w.tasks[t].Draining? then StepClose(s, w, t) else s
    case Propagate(raised) =>
      if w.cpu.Unwind? then StepPropagate(s, w, w.cpu.task, raised) else s
    case LeaveRun =>
      if w.cpu.Leave? then StepLeave(s, w, w.cpu.task) else s
    case StopWorker => s.(worker := None, leases := {})
    case _ => s
  }

  // ----- operator steps

  predicate LiveQuiescent(s: State, x: OperationId) {
    && s.worker.Some? && s.ack.Some?
    && s.ack.value.instance == s.worker.value.instance
    && s.ack.value.op == x && s.ack.value.quiescent && s.ack.value.inflight == 0
  }

  predicate Critical(o: Operator) {
    o.Drained? || o.Certified? || o.Release?
  }

  datatype FinishReply = AlreadyFinished | Rejected | Proceeds

  /** What a finish command finds: its journal must exist, control must carry its identifier, and control that is
      already open is answered by what the journal says. */
  function FinishReplyTo(s: State, x: OperationId): FinishReply {
    if x !in s.journals || s.control.op != x then Rejected
    else if !s.control.open then Proceeds
    else if s.journals[x].result == Succeeded then AlreadyFinished
    else Rejected
  }

  function OperatorStep(s: State, e: Event): State {
    var o := s.operator;
    match e
    case TakeExclusive => if s.leases == {} then s.(ex := true) else s
    case DropExclusive => if Critical(o) then s else s.(ex := false)
    case CommandEnds => s.(operator := Idle)
    case Begin(x) =>
      if o == Idle && s.control.open && s.control.op != x && s.worker.Some?
      then s.(operator := BeginJournal(x, s.worker.value.instance)) else s
    case WriteIntended =>
      if o.BeginJournal?
      then s.(journals := s.journals[o.x := Journal(o.initial, None, Intended)], operator := BeginHold(o.x)) else s
    case WriteHold =>
      if o.BeginHold? then s.(control := Control(false, o.x), operator := Idle) else s
    case Finish(x, release) =>
      if o == Idle && FinishReplyTo(s, x) == Proceeds
      then s.(operator := Ready(x, release, s.journals[x])) else s
    case CheckQuiescent =>
      if o.Ready? && s.ex && LiveQuiescent(s, o.x)
      then s.(operator := Drained(o.x, o.release, o.journal, Quiescent(s.worker.value.instance))) else s
    case CheckStopped(i) =>
      if o.Ready? && s.ex && s.worker == None && o.journal.drained == Some(i)
      then s.(operator := Certified(o.x, o.release, o.journal, Stopped(i))) else s
    case WriteDrained =>
      if o.Drained? then
        var j := o.journal.(drained := Some(o.cert.instance));
        s.(journals := s.journals[o.x := j], operator := Certified(o.x, o.release, j, o.cert))
      else s
    case WriteSucceeded =>
      if o.Certified? && o.release
      then s.(journals := s.journals[o.x := o.journal.(result := Succeeded)], operator := Release(o.x, o.cert)) else s
    case Reopen =>
      if o.Release? then s.(control := Control(true, o.x), operator := Idle) else s
    case StartWorker =>
      if s.worker == None
      then s.(worker := Some(Worker(s.nextInstance, map[], 0, false, None, Loop)), nextInstance := s.nextInstance + 1)
      else s
    case _ => s
  }

  predicate IsWorkerEvent(e: Event) {
    !(e.TakeExclusive? || e.DropExclusive? || e.CommandEnds? || e.Begin? || e.WriteIntended? || e.WriteHold?
      || e.Finish? || e.CheckQuiescent? || e.CheckStopped? || e.WriteDrained? || e.WriteSucceeded? || e.Reopen?
      || e.StartWorker?)
  }

  function Step(s: State, e: Event): State {
    if IsWorkerEvent(e) then
      if s.worker.Some? then WorkerStep(s, s.worker.value, e) else s
    else OperatorStep(s, e)
  }

  function Run(s: State, es: seq<Event>): State {
    if es == [] then s else Step(Run(s, es[..|es| - 1]), es[|es| - 1])
  }

  /** The state left by `initialize_hold`: no acknowledgement, no worker, whatever old journals there are. */
  function Initial(boot: OperationId, journals: map<OperationId, Journal>): State {
    State(Control(false, boot), None, journals, {}, false, None, 0, Idle)
  }

  // ----- the invariant

  function CpuTask(c: Cpu): Option<Task> {
    match c
    case Loop => None
    case Admit(t) => Some(t)
    case Holding(t) => Some(t)
    case Publish(k) => ContTask(k)
    case Write(k, _) => ContTask(k)
    case Marking(k, _) => ContTask(k)
    case Unwind(t) => Some(t)
    case Leave(t) => Some(t)
  }

  function ContTask(k: Cont): Option<Task> {
    if k.Heartbeat? then None else Some(k.task)
  }

  ghost predicate ContInv(w: Worker, k: Cont) {
    match k
    case StartBody(t) => t in w.tasks
    case FailBody(t) => t in w.tasks
    case Heartbeat => true
    case _ => k.task !in w.tasks
  }

  ghost predicate CpuInv(s: State, w: Worker) {
    match w.cpu
    case Loop => true
    case Admit(t) => !w.uncertain && t !in w.tasks && OfTask(t) !in s.leases
    case Holding(t) => !w.uncertain && t !in w.tasks && OfTask(t) in s.leases
    case Publish(k) => ContInv(w, k) && (k.StartBody? ==> !w.uncertain)
    case Write(k, a) =>
      && ContInv(w, k) && (k.StartBody? ==> !w.uncertain)
      && a.instance == w.instance && a.inflight == w.inflight
      && (a.quiescent ==> w.inflight == 0 && !w.uncertain)
    case Marking(k, _) => w.uncertain && ContInv(w, k)
    case Unwind(t) => t !in w.tasks
    case Leave(t) => t !in w.tasks
  }

  /** The body was called and the operation has not been counted out. */
  predicate HasRun(phase: Phase) {
    phase == Running || phase == Draining(true)
  }

  ghost predicate SaysDraining(ack: Option<Ack>, i: Instance) {
    ack.Some? && ack.value.instance == i && !ack.value.quiescent && ack.value.inflight >= 1
  }

  ghost predicate LeasesInv(s: State, w: Worker) {
    && (forall t | t in w.tasks :: OfTask(t) in s.leases)
    && (w.safety.Some? ==> w.uncertain && w.safety.value in s.leases)
    && (OfSafety in s.leases ==> w.safety == Some(OfSafety))
    && (forall t | OfTask(t) in s.leases :: t in w.tasks || w.safety == Some(OfTask(t)) || CpuTask(w.cpu) == Some(t))
  }

  ghost predicate WorkerInv(s: State, w: Worker) {
    && w.inflight == |w.tasks|
    && w.instance < s.nextInstance
    && LeasesInv(s, w)
    && CpuInv(s, w)
    && (forall t | t in w.tasks && HasRun(w.tasks[t]) :: SaysDraining(s.ack, w.instance))
  }

  ghost predicate HoldsJournal(s: State, x: OperationId, j: Journal) {
    s.control == Control(false, x) && x in s.journals && s.journals[x] == j
  }

  ghost predicate OperatorInv(s: State) {
    match s.operator
    case Idle => true
    case BeginJournal(x, _) => s.control.open && s.control.op != x
    case BeginHold(x) => s.control.open && s.control.op != x && x in s.journals
    case Ready(x, _, j) => HoldsJournal(s, x, j)
    case Drained(x, _, j, c) => s.ex && HoldsJournal(s, x, j) && c.Quiescent?
    case Certified(x, _, j, c) => s.ex && HoldsJournal(s, x, j) && j.drained == Some(c.instance)
    case Release(x, c) =>
      && s.ex && x in s.journals && HoldsJournal(s, x, s.journals[x])
      && s.journals[x].drained == Some(c.instance) && s.journals[x].result == Succeeded
  }

  ghost predicate JournalInv(s: State, boot: OperationId) {
    && (s.control.open ==> s.control.op in s.journals && s.journals[s.control.op].result == Succeeded)
    && (!s.control.open && s.control.op != boot ==> s.control.op in s.journals)
  }

  ghost predicate Inv(s: State, boot: OperationId) {
    && (s.ex ==> s.leases == {})
    && (s.worker == None ==> s.leases == {})
    && (s.worker.Some? ==> WorkerInv(s, s.worker.value))
    && OperatorInv(s)
    && JournalInv(s, boot)
  }

  lemma RemovedCard<K, V>(m: map<K, V>, k: K)
    requires k in m
    ensures |m - {k}| == |m| - 1
  {
    var m' := m - {k};
    assert m == m'[k := m[k]];
  }

  lemma WorkerStepKeepsInv(s: State, e: Event, boot: OperationId)
    requires Inv(s, boot) && s.worker.Some? && IsWorkerEvent(e)
    ensures Inv(WorkerStep(s, s.worker.value, e), boot)
  {
    match e
    case TakeShared(ok) => if s.worker.value.cpu.Admit? { TakeSharedKeepsInv(s, ok, boot); }
    case ReadForAdmission(_) => ReadForAdmissionKeepsInv(s, e, boot);
    case PublishWrite(outcome) => if s.worker.value.cpu.Write? { PublishWriteKeepsInv(s, outcome, boot); }
    case MarkShared(granted) => if s.worker.value.cpu.Marking? { MarkSharedKeepsInv(s, granted, boot); }
    case BodyReturns(_) => BodyReturnsKeepsInv(s, e, boot);
    case Close(_) => CloseKeepsInv(s, e, boot);
    case LeaveRun => LeaveKeepsInv(s, e, boot);
    case StopWorker =>
    case _ => LocalKeepsInv(s, e, boot);
  }

  /** Moving only the program counter, and perhaps setting the sticky flag, keeps the invariant. */
  lemma MoveKeepsInv(s: State, w': Worker, boot: OperationId)
    requires Inv(s, boot) && s.worker.Some?
    requires var w := s.worker.value;
      && w' == w.(uncertain := w'.uncertain, cpu := w'.cpu) && (w.uncertain ==> w'.uncertain)
      && (CpuTask(w.cpu) == None || CpuTask(w'.cpu) == CpuTask(w.cpu))
    requires CpuInv(s, w')
    ensures Inv(WithWorker(s, w'), boot)
  {
    var w := s.worker.value;
    var s' := WithWorker(s, w');
    assert LeasesInv(s', w') by {
      assert LeasesInv(s, w);
    }
    assert CpuInv(s', w');
    assert OperatorInv(s') by {
      assert OperatorInv(s);
    }
  }

  lemma LocalKeepsInv(s: State, e: Event, boot: OperationId)
    requires Inv(s, boot) && s.worker.Some?
    requires e.RunEnter? || e.PublishRequest? || e.PublishRead? || e.MarkUncertain? || e.BodyRaises? || e.Propagate?
    ensures Inv(WorkerStep(s, s.worker.value, e), boot)
  {
    var w := s.worker.value;
    var s' := WorkerStep(s, w, e);
    if s' != s {
      LocalMoves(s, e);
      MoveKeepsInv(s, s'.worker.value, boot);
    }
  }

  /** These steps only move the program counter, within the same task. */
  lemma LocalMoves(s: State, e: Event)
    requires s.worker.Some? && CpuInv(s, s.worker.value)
    requires e.RunEnter? || e.PublishRequest? || e.PublishRead? || e.MarkUncertain? || e.BodyRaises? || e.Propagate?
    ensures var w, s' := s.worker.value, WorkerStep(s, s.worker.value, e);
      && s'.worker.Some? && s' == WithWorker(s, s'.worker.value) && CpuInv(s, s'.worker.value)
      && var w' := s'.worker.value;
         && w' == w.(uncertain := w'.uncertain, cpu := w'.cpu) && (w.uncertain ==> w'.uncertain)
         && (CpuTask(w.cpu) == None || CpuTask(w'.cpu) == CpuTask(w.cpu))
  {
  }

  lemma TakeSharedKeepsInv(s: State, ok: bool, boot: OperationId)
    requires Inv(s, boot) && s.worker.Some? && s.worker.value.cpu.Admit?
    ensures Inv(StepTakeShared(s, s.worker.value, s.worker.value.cpu.task, ok), boot)
  {
    var w := s.worker.value;
    var s' := StepTakeShared(s, w, w.cpu.task, ok);
    var w' := s'.worker.value;
    if !ok || s.ex {
      MoveKeepsInv(s, w', boot);
    } else {
      assert LeasesInv(s', w') by { assert LeasesInv(s, w); }
      assert OperatorInv(s') by { assert OperatorInv(s); }
    }
  }

  lemma ReadForAdmissionKeepsInv(s: State, e: Event, boot: OperationId)
    requires Inv(s, boot) && s.worker.Some? && e.ReadForAdmission?
    ensures Inv(WorkerStep(s, s.worker.value, e), boot)
  {
  }

  lemma BodyReturnsKeepsInv(s: State, e: Event, boot: OperationId)
    requires Inv(s, boot) && s.worker.Some? && e.BodyReturns?
    ensures Inv(WorkerStep(s, s.worker.value, e), boot)
  {
    var w := s.worker.value;
    if w.cpu == Loop && e.task in w.tasks && w.tasks[e.task] == Running {
      SameKeysSameCard(w.tasks[e.task := Draining(true)], w.tasks);
    }
  }

  lemma CloseKeepsInv(s: State, e: Event, boot: OperationId)
    requires Inv(s, boot) && s.worker.Some? && e.Close?
    ensures Inv(WorkerStep(s, s.worker.value, e), boot)
  {
    var w := s.worker.value;
    if w.cpu == Loop && e.task in w.tasks && w.tasks[e.task].Draining? {
      RemovedCard(w.tasks, e.task);
    }
  }

  lemma LeaveKeepsInv(s: State, e: Event, boot: OperationId)
    requires Inv(s, boot) && s.worker.Some? && e.LeaveRun?
    ensures Inv(WorkerStep(s, s.worker.value, e), boot)
  {
    var w := s.worker.value;
    if w.cpu.Leave? {
      var s' := StepLeave(s, w, w.cpu.task);
      assert LeasesInv(s', s'.worker.value) by { assert LeasesInv(s, w); }
      assert OperatorInv(s') by { assert OperatorInv(s); }
    }
  }

  lemma SameKeysSameCard<K, V>(m: map<K, V>, n: map<K, V>)
    requires m.Keys == n.Keys
    ensures |m| == |n|
  {
    assert |m| == |m.Keys| == |n.Keys| == |n|;
  }

  lemma PublishWriteKeepsInv(s: State, outcome: WriteOutcome, boot: OperationId)
    requires Inv(s, boot) && s.worker.Some? && s.worker.value.cpu.Write?
    ensures Inv(StepPublishWrite(s, s.worker.value, s.worker.value.cpu.k, s.worker.value.cpu.pending, outcome), boot)
  {
    var w := s.worker.value;
    var k, a := w.cpu.k, w.cpu.pending;
    var s' := StepPublishWrite(s, w, k, a, outcome);
    var w' := s'.worker.value;
    assert w'.tasks.Keys == w.tasks.Keys;
    SameKeysSameCard(w'.tasks, w.tasks);
    assert LeasesInv(s', w') by { assert LeasesInv(s, w); }
    assert OperatorInv(s') by { assert OperatorInv(s); }
    forall t | t in w'.tasks && HasRun(w'.tasks[t])
      ensures SaysDraining(s'.ack, w'.instance)
    {
      assert t in w.tasks.Keys;
      assert |w.tasks.Keys| >= |{t}| by { assert {t} <= w.tasks.Keys; SubsetCard({t}, w.tasks.Keys); }
    }
  }

  /** A process that is already marked goes on without a safety lease. */
  lemma MarkedKeepsInv(s: State, boot: OperationId)
    requires Inv(s, boot) && s.worker.Some? && s.worker.value.cpu.Marking?
    ensures Inv(WithWorker(s, AfterAttempt(s.worker.value, s.worker.value.cpu.k, s.worker.value.cpu.again)), boot)
  {
    var w := s.worker.value;
    var w' := AfterAttempt(w, w.cpu.k, w.cpu.again);
    if w.cpu.again {
      MoveKeepsInv(s, w', boot);
    } else {
      var s' := WithWorker(s, w');
      assert w'.tasks.Keys == w.tasks.Keys;
      SameKeysSameCard(w'.tasks, w.tasks);
      assert LeasesInv(s', w') by { assert LeasesInv(s, w); }
      assert OperatorInv(s') by { assert OperatorInv(s); }
    }
  }

  /** Holding a safety lease as well keeps the invariant of a marked process between its steps. */
  lemma SafetyKeepsInv(s: State, boot: OperationId)
    requires Inv(s, boot) && s.worker.Some? && s.worker.value.uncertain && s.worker.value.safety == None && !s.ex
    requires !s.worker.value.cpu.Admit? && !s.worker.value.cpu.Holding?
    ensures Inv(WithWorker(s, s.worker.value.(safety := Some(OfSafety))).(leases := s.leases + {OfSafety}), boot)
  {
    var w := s.worker.value;
    var w' := w.(safety := Some(OfSafety));
    var s' := WithWorker(s, w').(leases := s.leases + {OfSafety});
    assert LeasesInv(s', w') by { assert LeasesInv(s, w); }
    assert CpuInv(s', w') by { assert CpuInv(s, w); }
    assert OperatorInv(s') by { assert OperatorInv(s); }
  }

  lemma MarkSharedKeepsInv(s: State, granted: bool, boot: OperationId)
    requires Inv(s, boot) && s.worker.Some? && s.worker.value.cpu.Marking?
    ensures Inv(StepMarkShared(s, s.worker.value, s.worker.value.cpu.k, s.worker.value.cpu.again, granted), boot)
  {
    var w := s.worker.value;
    if w.safety == None && w.inflight == 0 && granted && !s.ex {
      SafetyKeepsInv(s, boot);
      MarkedKeepsInv(WithWorker(s, w.(safety := Some(OfSafety))).(leases := s.leases + {OfSafety}), boot);
    } else {
      MarkedKeepsInv(s, boot);
    }
  }

  lemma OperatorLeavesWorker(s: State, e: Event)
    requires !IsWorkerEvent(e) && s.worker.Some?
    ensures var s' := OperatorStep(s, e);
      s'.worker == s.worker && s'.leases == s.leases && s'.ack == s.ack && s'.nextInstance == s.nextInstance
  {
  }

  lemma OperatorKeepsItsInv(s: State, e: Event, boot: OperationId)
    requires OperatorInv(s) && JournalInv(s, boot) && !IsWorkerEvent(e)
    ensures OperatorInv(OperatorStep(s, e)) && JournalInv(OperatorStep(s, e), boot)
  {
  }

  lemma OperatorStepKeepsInv(s: State, e: Event, boot: OperationId)
    requires Inv(s, boot) && !IsWorkerEvent(e)
    ensures Inv(OperatorStep(s, e), boot)
  {
    var s' := OperatorStep(s, e);
    OperatorKeepsItsInv(s, e, boot);
    if s.worker.Some? {
      var w := s.worker.value;
      OperatorLeavesWorker(s, e);
      assert WorkerInv(s', w) by {
        assert LeasesInv(s, w) && CpuInv(s, w);
        assert LeasesInv(s', w) && CpuInv(s', w);
      }
    }
  }

  lemma StepKeepsInv(s: State, e: Event, boot: OperationId)
    requires Inv(s, boot)
    ensures Inv(Step(s, e), boot)
  {
    if !IsWorkerEvent(e) {
      OperatorStepKeepsInv(s, e, boot);
    } else if s.worker.Some? {
      WorkerStepKeepsInv(s, e, boot);
    }
  }

  lemma {:induction false} RunKeepsInv(s: State, es: seq<Event>, boot: OperationId)
    requires Inv(s, boot)
    ensures Inv(Run(s, es), boot)
  {
    if es != [] {
      RunKeepsInv(s, es[..|es| - 1], boot);
      StepKeepsInv(Run(s, es[..|es| - 1]), es[|es| - 1], boot);
    }
  }
}
