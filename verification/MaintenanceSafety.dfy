/** What every run of the maintenance protocol guarantees, for any interleaving and any crash. */
module MaintenanceSafety {
  import opened Base
  import opened MaintenanceProtocol

  ghost predicate NoneRunning(s: State) {
    s.worker.Some? ==> s.worker.value.tasks == map[] && s.worker.value.inflight == 0
  }

  lemma InitialInv(boot: OperationId, journals: map<OperationId, Journal>)
    ensures Inv(Initial(boot, journals), boot)
  {
  }

  /** From the call of its body until the operation is counted out, with its auxiliaries still at work: the file of this
      very process says `draining` and its shared lease is held. */
  lemma RunningMeansDraining(boot: OperationId, journals: map<OperationId, Journal>, es: seq<Event>, t: Task)
    requires var s := Run(Initial(boot, journals), es);
      s.worker.Some? && t in s.worker.value.tasks && HasRun(s.worker.value.tasks[t])
    ensures var s := Run(Initial(boot, journals), es);
      SaysDraining(s.ack, s.worker.value.instance) && OfTask(t) in s.leases && !s.ex
  {
    InitialInv(boot, journals);
    RunKeepsInv(Initial(boot, journals), es, boot);
  }

  lemma ExclusiveMeansNoneRunning(s: State, boot: OperationId)
    requires Inv(s, boot) && s.ex
    ensures NoneRunning(s)
  {
    if s.worker.Some? {
      var w := s.worker.value;
      forall t ensures t !in w.tasks.Keys {
        if t in w.tasks { assert false; }
      }
      assert w.tasks.Keys == {};
    }
  }

  lemma StepStaysQuiet(s: State, e: Event, boot: OperationId)
    requires Inv(s, boot) && NoneRunning(s) && !s.control.open && !e.Reopen?
    ensures NoneRunning(Step(s, e)) && Step(s, e).control == s.control
  {
    if !IsWorkerEvent(e) {
      assert OperatorInv(s);
      if s.worker.Some? { OperatorLeavesWorker(s, e); }
    } else if s.worker.Some? {
      WorkerStaysQuiet(s, s.worker.value, e);
    }
  }

  lemma WorkerStaysQuiet(s: State, w: Worker, e: Event)
    requires s.worker == Some(w) && CpuInv(s, w) && NoneRunning(s) && !s.control.open && IsWorkerEvent(e)
    ensures NoneRunning(Step(s, e)) && Step(s, e).control == s.control
  {
  }

  /** Once the exclusive lease has been held over a `hold`, nothing runs or starts before admission is reopened,
      even after the lease is dropped and across restarts of the worker. */
  lemma {:induction false} QuietUntilReopened(s: State, es: seq<Event>, boot: OperationId)
    requires Inv(s, boot) && s.ex && !s.control.open
    requires forall e | e in es :: !e.Reopen?
    ensures NoneRunning(Run(s, es)) && Run(s, es).control == s.control
  {
    if es == [] {
      ExclusiveMeansNoneRunning(s, boot);
    } else {
      var before := es[..|es| - 1];
      QuietUntilReopened(s, before, boot);
      RunKeepsInv(s, before, boot);
      StepStaysQuiet(Run(s, before), es[|es| - 1], boot);
    }
  }

  // ----- uncertainty

  /** Marking while an operation is in flight always leaves the process holding a shared lease. */
  lemma MarkedInFlightIsPinned(s: State, boot: OperationId)
    requires Inv(s, boot) && s.worker.Some? && s.worker.value.inflight > 0
    ensures s.leases != {}
  {
    var w := s.worker.value;
    assert w.tasks.Keys != {};
    var t :| t in w.tasks.Keys;
    assert OfTask(t) in s.leases;
  }

  /** With nothing in flight the mark is pinned exactly when a lease is already held or the shared lock is granted. */
  lemma MarkedIdleIsPinnedIff(s: State, granted: bool, boot: OperationId)
    requires Inv(s, boot) && s.worker.Some? && s.worker.value.cpu.Marking? && s.worker.value.inflight == 0
    ensures Step(s, MarkShared(granted)).leases != {} <==> s.leases != {} || (granted && !s.ex)
  {
    var w := s.worker.value;
    if w.safety.Some? { assert w.safety.value in s.leases; }
    if granted && !s.ex && w.safety == None {
      assert OfSafety in Step(s, MarkShared(granted)).leases;
    }
  }

  ghost predicate Pinned(s: State, i: Instance) {
    s.worker.Some? && s.worker.value.instance == i && s.worker.value.uncertain && s.leases != {}
  }

  /** What one step may do to an uncertain process: no new operation, no new quiescent file. */
  ghost predicate OnlyDrains(s: State, s': State) {
    && s.worker.Some? && s'.worker.Some?
    && s'.worker.value.tasks.Keys <= s.worker.value.tasks.Keys
    && (s'.ack == s.ack || (s'.ack.Some? && !s'.ack.value.quiescent))
  }

  lemma LeaveStaysPinned(s: State, i: Instance, boot: OperationId)
    requires Inv(s, boot) && Pinned(s, i)
    ensures Pinned(Step(s, LeaveRun), i) && OnlyDrains(s, Step(s, LeaveRun))
  {
    var w := s.worker.value;
    if w.cpu.Leave? && OfTask(w.cpu.task) in s.leases {
      var w' := Retained(w, OfTask(w.cpu.task));
      assert w'.safety.Some? && w'.safety.value in s.leases;
      assert w'.safety.value in Step(s, LeaveRun).leases;
    }
  }

  lemma WriteStaysPinned(s: State, outcome: WriteOutcome, i: Instance, boot: OperationId)
    requires Inv(s, boot) && Pinned(s, i)
    ensures var s' := Step(s, PublishWrite(outcome)); Pinned(s', i) && OnlyDrains(s, s')
  {
    var w := s.worker.value;
    if w.cpu.Write? {
      assert !w.cpu.pending.quiescent;
    }
  }

  lemma StepStaysPinned(s: State, e: Event, i: Instance, boot: OperationId)
    requires Inv(s, boot) && Pinned(s, i) && !e.StopWorker?
    ensures Pinned(Step(s, e), i) && OnlyDrains(s, Step(s, e))
  {
    var w := s.worker.value;
    assert CpuInv(s, w);
    if !IsWorkerEvent(e) {
      OperatorLeavesWorker(s, e);
    } else if e == LeaveRun {
      LeaveStaysPinned(s, i, boot);
    } else if e.PublishWrite? {
      WriteStaysPinned(s, e.outcome, i, boot);
    } else {
      OtherStaysPinned(s, e, i);
    }
  }

  lemma OtherStaysPinned(s: State, e: Event, i: Instance)
    requires s.worker.Some? && CpuInv(s, s.worker.value) && Pinned(s, i)
    requires IsWorkerEvent(e) && e != LeaveRun && !e.PublishWrite? && !e.StopWorker?
    ensures Pinned(Step(s, e), i) && OnlyDrains(s, Step(s, e))
  {
    var w := s.worker.value;
    assert !w.cpu.Admit? && !w.cpu.Holding?;
    if e.MarkShared? && w.cpu.Marking? {
      assert s.leases <= Step(s, e).leases;
    }
  }

  /** Permanence: until the process dies it keeps a shared lease (so the exclusive one is never granted),
      admits nothing and publishes nothing but `draining`. */
  lemma {:induction false} UncertaintyIsPermanent(s: State, es: seq<Event>, i: Instance, boot: OperationId)
    requires Inv(s, boot) && Pinned(s, i)
    requires forall e | e in es :: !e.StopWorker?
    ensures Pinned(Run(s, es), i) && OnlyDrains(s, Run(s, es)) && !Run(s, es).ex
  {
    if es != [] {
      var before := es[..|es| - 1];
      UncertaintyIsPermanent(s, before, i, boot);
      RunKeepsInv(s, before, boot);
      StepStaysPinned(Run(s, before), es[|es| - 1], i, boot);
      StepKeepsInv(Run(s, before), es[|es| - 1], boot);
    }
  }

  // ----- control and journals

  /** The control file alternates: a hold is opened under its own identifier, an open one is held under another. */
  lemma ControlAlternates(s: State, e: Event, boot: OperationId)
    requires Inv(s, boot)
    ensures var c, c' := s.control, Step(s, e).control;
      c' == c || (c.open != c'.open && (c.op == c'.op <==> c'.open))
  {
  }

  /** Over every run with crashes anywhere: an open control has a succeeded journal, a hold begun here has one. */
  lemma JournalsMatchControl(boot: OperationId, journals: map<OperationId, Journal>, es: seq<Event>)
    ensures var s := Run(Initial(boot, journals), es);
      && (s.control.open ==> s.control.op in s.journals && s.journals[s.control.op].result == Succeeded)
      && (!s.control.open && s.control.op != boot ==> s.control.op in s.journals)
  {
    InitialInv(boot, journals);
    RunKeepsInv(Initial(boot, journals), es, boot);
  }

  /** The evidence an operator command rests on, as it stood when it was looked at. */
  ghost predicate CheckedAt(s: State, x: OperationId, c: Certificate) {
    && s.ex && s.control == Control(false, x)
    && match c
       case Quiescent(i) => LiveQuiescent(s, x) && s.worker.value.instance == i
       case Stopped(i) => s.worker == None && x in s.journals && s.journals[x].drained == Some(i)
  }

  ghost predicate Held(s: State, x: OperationId) {
    s.ex && s.control == Control(false, x) && NoneRunning(s)
  }

  /** From prefix `m` to the end of the run: checked, then continuously exclusive, held and idle. */
  ghost predicate HeldSince(s0: State, es: seq<Event>, m: nat, x: OperationId, c: Certificate) {
    && m <= |es|
    && CheckedAt(Run(s0, es[..m]), x, c)
    && forall j | m <= j <= |es| :: Held(Run(s0, es[..j]), x)
  }

  lemma EntersCriticalByCheck(s: State, e: Event, boot: OperationId)
    requires Inv(s, boot) && Critical(Step(s, e).operator)
    ensures var o, o' := s.operator, Step(s, e).operator;
      if Critical(o) then o.x == o'.x && o.cert == o'.cert else CheckedAt(s, o'.x, o'.cert)
  {
  }

  /** The last step of a run that ends in a critical command. */
  lemma LastStepToCritical(s0: State, es: seq<Event>, boot: OperationId)
    requires Inv(s0, boot) && es != [] && Critical(Run(s0, es).operator)
    ensures var s, o' := Run(s0, es[..|es| - 1]), Run(s0, es).operator;
      && Held(Run(s0, es), o'.x)
      && if Critical(s.operator) then s.operator.x == o'.x && s.operator.cert == o'.cert
         else CheckedAt(s, o'.x, o'.cert) && Held(s, o'.x)
  {
    var before, e := es[..|es| - 1], es[|es| - 1];
    var s := Run(s0, before);
    RunKeepsInv(s0, before, boot);
    StepKeepsInv(s, e, boot);
    EntersCriticalByCheck(s, e, boot);
    ExclusiveMeansNoneRunning(Step(s, e), boot);
    if !Critical(s.operator) {
      ExclusiveMeansNoneRunning(s, boot);
    }
  }

  lemma {:induction false} CriticalWasChecked(s0: State, es: seq<Event>, boot: OperationId)
    requires Inv(s0, boot) && !Critical(s0.operator)
    requires Critical(Run(s0, es).operator)
    ensures exists m: nat :: m < |es| && HeldSince(s0, es, m, Run(s0, es).operator.x, Run(s0, es).operator.cert)
  {
    var n := |es| - 1;
    var before := es[..n];
    var x, c := Run(s0, es).operator.x, Run(s0, es).operator.cert;
    LastStepToCritical(s0, es, boot);
    var m: nat := n;
    if Critical(Run(s0, before).operator) {
      CriticalWasChecked(s0, before, boot);
      m :| m < |before| && HeldSince(s0, before, m, x, c);
    } else {
      CheckedIsHeldNow(s0, before, x, c);
    }
    ExtendHeld(s0, es, m, x, c);
  }

  lemma CheckedIsHeldNow(s0: State, es: seq<Event>, x: OperationId, c: Certificate)
    requires CheckedAt(Run(s0, es), x, c) && Held(Run(s0, es), x)
    ensures HeldSince(s0, es, |es|, x, c)
  {
    assert es[..|es|] == es;
  }

  lemma ExtendHeld(s0: State, es: seq<Event>, m: nat, x: OperationId, c: Certificate)
    requires es != [] && m <= |es| - 1 && HeldSince(s0, es[..|es| - 1], m, x, c)
    requires Held(Run(s0, es), x)
    ensures HeldSince(s0, es, m, x, c)
  {
    var before := es[..|es| - 1];
    assert es[..|es|] == es;
    assert before[..m] == es[..m];
    forall j | m <= j <= |es|
      ensures Held(Run(s0, es[..j]), x)
    {
      if j < |es| {
        assert es[..j] == before[..j];
        assert Held(Run(s0, before[..j]), x);
      }
    }
  }

  /** Admission is reopened only after quiescence, or the stop of an already drained process, was checked
      under an exclusive lease kept ever since; the journal then says so. */
  lemma ReopenedAfterCheck(s0: State, es: seq<Event>, e: Event, boot: OperationId)
    requires Inv(s0, boot) && !Critical(s0.operator)
    requires !Run(s0, es).control.open && Step(Run(s0, es), e).control.open
    ensures var s, s' := Run(s0, es), Step(Run(s0, es), e);
      && s.operator.Release?
      && (exists m: nat :: m < |es| && HeldSince(s0, es, m, s'.control.op, s.operator.cert))
      && s'.control.op in s'.journals
      && s'.journals[s'.control.op].result == Succeeded
      && s'.journals[s'.control.op].drained == Some(s.operator.cert.instance)
  {
    RunKeepsInv(s0, es, boot);
    OpenedByRelease(Run(s0, es), e, boot);
    CriticalWasChecked(s0, es, boot);
  }

  lemma OpenedByRelease(s: State, e: Event, boot: OperationId)
    requires Inv(s, boot) && !s.control.open && Step(s, e).control.open
    ensures var s' := Step(s, e);
      && s.operator.Release? && s'.control.op == s.operator.x
      && s'.control.op in s'.journals
      && s'.journals[s'.control.op].result == Succeeded
      && s'.journals[s'.control.op].drained == Some(s.operator.cert.instance)
  {
    assert e.Reopen? && s.operator.Release?;
    assert Step(s, e) == s.(control := Control(true, s.operator.x), operator := Idle);
  }

  // ----- recovery of the operator

  ghost predicate CanFinish(s: State, x: OperationId) {
    s.ex && s.control == Control(false, x) && x in s.journals && LiveQuiescent(s, x)
  }

  function FinishEvents(x: OperationId): seq<Event> {
    [Finish(x, true), CheckQuiescent, WriteDrained, WriteSucceeded, Reopen]
  }

  lemma RunAppend(s: State, es: seq<Event>, e: Event)
    ensures Run(s, es + [e]) == Step(Run(s, es), e)
  {
    assert (es + [e])[..|es|] == es;
  }

  lemma RunFive(s: State, a: Event, b: Event, c: Event, d: Event, e: Event)
    ensures Run(s, []) == s
    ensures Run(s, [a]) == Step(s, a)
    ensures Run(s, [a, b]) == Step(Step(s, a), b)
    ensures Run(s, [a, b, c]) == Step(Step(Step(s, a), b), c)
    ensures Run(s, [a, b, c, d]) == Step(Step(Step(Step(s, a), b), c), d)
    ensures Run(s, [a, b, c, d, e]) == Step(Step(Step(Step(Step(s, a), b), c), d), e)
  {
    RunAppend(s, [], a);
    RunAppend(s, [a], b);
    RunAppend(s, [a, b], c);
    RunAppend(s, [a, b, c], d);
    RunAppend(s, [a, b, c, d], e);
    assert [a] + [b] == [a, b] && [a, b] + [c] == [a, b, c] && [a, b, c] + [d] == [a, b, c, d];
    assert [a, b, c, d] + [e] == [a, b, c, d, e] && [] + [a] == [a];
  }

  lemma StepKeepsCanFinish(s: State, x: OperationId, e: Event)
    requires CanFinish(s, x) && (e in FinishEvents(x)[..4] || e.CommandEnds?)
    ensures CanFinish(Step(s, e), x)
  {
  }

  lemma {:induction false} PrefixKeepsCanFinish(s: State, x: OperationId, k: nat)
    requires CanFinish(s, x) && k <= 4
    ensures CanFinish(Run(s, FinishEvents(x)[..k]), x)
  {
    if k > 0 {
      var es := FinishEvents(x);
      PrefixKeepsCanFinish(s, x, k - 1);
      assert es[..k][..k - 1] == es[..k - 1] && es[..k][k - 1] == es[k - 1] == es[..4][k - 1];
      StepKeepsCanFinish(Run(s, es[..k - 1]), x, es[k - 1]);
    }
  }

  /** What a finish over a live quiescent acknowledgement leaves. */
  function FinishedState(s: State, x: OperationId, i: Instance): State
    requires x in s.journals
  {
    s.(control := Control(true, x), journals := s.journals[x := s.journals[x].(drained := Some(i), result := Succeeded)])
  }

  lemma FinishSteps(s: State, x: OperationId)
    requires CanFinish(s, x) && s.operator == Idle
    ensures Step(Step(Step(Step(Step(s, Finish(x, true)), CheckQuiescent), WriteDrained), WriteSucceeded), Reopen)
         == FinishedState(s, x, s.worker.value.instance)
  {
    var j := s.journals[x];
    var i := s.worker.value.instance;
    var j1 := j.(drained := Some(i));
    var j2 := j1.(result := Succeeded);
    var s1 := Step(s, Finish(x, true));
    assert s1 == s.(operator := Ready(x, true, j));
    var s2 := Step(s1, CheckQuiescent);
    assert s2 == s1.(operator := Drained(x, true, j, Quiescent(i)));
    var s3 := Step(s2, WriteDrained);
    assert s3 == s2.(journals := s.journals[x := j1], operator := Certified(x, true, j1, Quiescent(i)));
    var s4 := Step(s3, WriteSucceeded);
    assert s.journals[x := j1][x := j2] == s.journals[x := j2];
    assert s4 == s3.(journals := s.journals[x := j2], operator := Release(x, Quiescent(i)));
  }

  lemma FinishCompletes(s: State, x: OperationId)
    requires CanFinish(s, x) && s.operator == Idle
    ensures Run(s, FinishEvents(x)) == FinishedState(s, x, s.worker.value.instance)
  {
    FinishSteps(s, x);
    RunFive(s, Finish(x, true), CheckQuiescent, WriteDrained, WriteSucceeded, Reopen);
  }

  /** A finish command cut short anywhere before its last write can be issued again, and then completes. */
  lemma FinishRecovers(s: State, x: OperationId, k: nat)
    requires CanFinish(s, x) && k <= 4
    ensures var crashed := Step(Run(s, FinishEvents(x)[..k]), CommandEnds);
      && !crashed.control.open
      && var done := Run(crashed, FinishEvents(x));
         && done.control == Control(true, x) && done.operator == Idle
         && x in done.journals && done.journals[x].result == Succeeded
  {
    PrefixKeepsCanFinish(s, x, k);
    var cut := Run(s, FinishEvents(x)[..k]);
    StepKeepsCanFinish(cut, x, CommandEnds);
    FinishCompletes(Step(cut, CommandEnds), x);
  }

  lemma RepeatedSteps(s: State, x: OperationId, release: bool)
    requires FinishReplyTo(s, x) == AlreadyFinished && s.operator == Idle
    ensures Step(s, Finish(x, release)) == s && Step(s, CheckQuiescent) == s
    ensures Step(s, WriteDrained) == s && Step(s, WriteSucceeded) == s && Step(s, Reopen) == s
  {
  }

  /** A finish repeated in a reachable state after opening is answered as finished, since the journal says so, and
      changes nothing: every later step of the command finds it not under way. */
  lemma RepeatedFinishChangesNothing(boot: OperationId, journals: map<OperationId, Journal>, es: seq<Event>,
                                     x: OperationId, release: bool)
    requires var s := Run(Initial(boot, journals), es); s.control == Control(true, x) && s.operator == Idle
    ensures var s := Run(Initial(boot, journals), es);
      && FinishReplyTo(s, x) == AlreadyFinished
      && Run(s, [Finish(x, release), CheckQuiescent, WriteDrained, WriteSucceeded, Reopen]) == s
  {
    var s := Run(Initial(boot, journals), es);
    JournalsMatchControl(boot, journals, es);
    RepeatedSteps(s, x, release);
    RunFive(s, Finish(x, release), CheckQuiescent, WriteDrained, WriteSucceeded, Reopen);
  }
}
