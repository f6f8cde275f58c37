/** The session pool as a state machine: any number of borrowers, interleaved wherever the pool awaits. */
module SessionPool {
  import opened Base
  import opened SlotLifecycle
  import opened SlotSafety

  /** Where the owner of a slot is: preparing it, holding it for a guest or for Familia, or giving it back. */
  datatype Phase = Free | Preparing(guest: bool) | Guest | Familia | Returning

  /** `choosing`: borrowers that took a permit and have not chosen a slot yet. `issued`: the next unused session.
      `lapsed`: slots whose cookies were found expired since they were installed; this only keeps account. */
  datatype Pool = Pool(
    slots: seq<Slot>,
    phases: seq<Phase>,
    permits: int,
    choosing: nat,
    checkout: map<Session, nat>,
    store: map<nat, Bundle>,
    issued: Session,
    lapsed: set<nat>)

  datatype Event =
    | TakePermit
    | Choose(now: real, guest: bool)
    | Finish(index: nat, prep: Prep, loan: Load)
    | PopCheckout(session: Session)
    | GiveBack(index: nat, how: Return)
    | ReportStates(now: real)
    | GrowOld(index: nat)
    | OthersWrite(index: nat, entry: Option<Bundle>)

  function Initial(n: nat, store: map<nat, Bundle>): Pool {
    Pool(seq(n, i => FRESH), seq(n, i => Phase.Free), n, 0, map[], store, 0, {})
  }

  // ----- steps

  function CellOf(p: Pool, i: nat): Cell
    requires i < |p.slots|
  {
    Cell(p.slots[i], if i in p.store then Some(p.store[i]) else None)
  }

  function Put(p: Pool, i: nat, c: Cell): Pool
    requires i < |p.slots|
  {
    p.(slots := p.slots[i := c.slot],
       store := if c.entry.Some? then p.store[i := c.entry.value] else p.store - {i})
  }

  predicate Choosable(s: Slot, now: real) {
    !s.busy && Expired(s, now).disposition != Cooldown
  }

  function FirstFree(slots: seq<Slot>, now: real, k: nat): (r: Option<nat>)
    requires k <= |slots|
    ensures r.Some? ==> k <= r.value < |slots| && Choosable(slots[r.value], now)
    ensures r.Some? ==> forall j | k <= j < r.value :: !Choosable(slots[j], now)
    ensures r == None ==> forall j | k <= j < |slots| :: !Choosable(slots[j], now)
    decreases |slots| - k
  {
    if k == |slots| then None
    else if Choosable(slots[k], now) then Some(k)
    else FirstFree(slots, now, k + 1)
  }

  function Chosen(p: Pool, now: real, guest: bool): Pool {
    match FirstFree(p.slots, now, 0)
    case None => p.(choosing := if p.choosing > 0 then p.choosing - 1 else 0, permits := p.permits + 1)
    case Some(i) =>
      if i >= |p.phases| then p
      else p.(slots := p.slots[i := Expired(p.slots[i], now).(busy := true, minted := false)],
              phases := p.phases[i := Preparing(guest)],
              choosing := if p.choosing > 0 then p.choosing - 1 else 0)
  }

  /** Installing another session ends the account of the cookies before it. */
  function Accounted(cfg: Config, lapsed: set<nat>, i: nat, before: Slot, after: Slot, expired: bool): set<nat> {
    if after.session != before.session then lapsed - {i}
    else if expired && Ready(cfg, before) then lapsed + {i}
    else lapsed
  }

  /** The slot is not busy any more and its permit is back. */
  function Vacated(p: Pool, i: nat): Pool
    requires i < |p.slots| && i < |p.phases|
  {
    p.(slots := p.slots[i := p.slots[i].(busy := false)], phases := p.phases[i := Phase.Free], permits := p.permits + 1)
  }

  /** What giving slot `i` back does, whoever calls it. */
  function SlotReturned(cfg: Config, p: Pool, i: nat, how: Return): Pool
    requires i < |p.slots| && i < |p.phases|
  {
    var c := Returned(cfg, CellOf(p, i), how, p.issued).cell;
    Vacated(Put(p, i, c).(issued := p.issued + 2, lapsed := Accounted(cfg, p.lapsed, i, p.slots[i], c.slot, false)), i)
  }

  /** The preparation of a chosen slot, whatever comes of it. */
  function Worked(cfg: Config, p: Pool, i: nat, prep: Prep): Pool
    requires i < |p.slots|
  {
    var c := Prepared(cfg, CellOf(p, i), prep, p.issued).cell;
    Put(p, i, c).(issued := p.issued + 2, lapsed := Accounted(cfg, p.lapsed, i, p.slots[i], c.slot, prep.expired))
  }

  function Finished(cfg: Config, p: Pool, i: nat, prep: Prep, loan: Load): Pool
    requires i < |p.slots| && i < |p.phases| && p.phases[i].Preparing?
  {
    var o := Prepared(cfg, CellOf(p, i), prep, p.issued);
    var p1 := Worked(cfg, p, i, prep);
    if o.failure.Some? then Vacated(p1, i)
    else if p.phases[i].guest then
      if p1.slots[i].session == None then p1
      else p1.(checkout := p1.checkout[p1.slots[i].session.value := i], phases := p1.phases[i := Guest])
    else if loan == Raises then SlotReturned(cfg, p1, i, Return(Some(true), None, true, prep.mint, prep.now))
    else p1.(phases := p1.phases[i := Familia])
  }

  function Popped(p: Pool, session: Session): Pool {
    if session !in p.checkout || p.checkout[session] >= |p.phases| then p
    else p.(checkout := p.checkout - {session}, phases := p.phases[p.checkout[session] := Returning])
  }

  function Step(cfg: Config, p: Pool, e: Event): Pool {
    match e
    case TakePermit => if p.permits > 0 then p.(permits := p.permits - 1, choosing := p.choosing + 1) else p
    case Choose(now, guest) => if p.choosing > 0 then Chosen(p, now, guest) else p
    case Finish(i, prep, loan) =>
      if i < |p.slots| && i < |p.phases| && p.phases[i].Preparing? then Finished(cfg, p, i, prep, loan) else p
    case PopCheckout(session) => Popped(p, session)
    case GiveBack(i, how) =>
      if i < |p.slots| && i < |p.phases| && (p.phases[i].Familia? || p.phases[i].Returning?) then SlotReturned(cfg, p, i, how) else p
    case ReportStates(now) => p.(slots := seq(|p.slots|, i requires 0 <= i < |p.slots| => Expired(p.slots[i], now)))
    case GrowOld(i) => if i < |p.slots| && p.slots[i].session.Some? then p.(slots := p.slots[i := p.slots[i].(aged := true)]) else p
    case OthersWrite(i, entry) => p.(store := if entry.Some? then p.store[i := entry.value] else p.store - {i})
  }

  function Run(cfg: Config, p: Pool, es: seq<Event>): Pool {
    if es == [] then p else Step(cfg, Run(cfg, p, es[..|es| - 1]), es[|es| - 1])
  }

  // ----- a rejected session

  /** Its slot is to be replaced, at once or when its cooldown is over. */
  predicate ToReplace(s: Slot) {
    s.disposition == Replace || (s.disposition == Cooldown && s.recovery == Some(Replace))
  }

  /** Nobody holds the session, no slot is about to lend it as it is, and it will not be issued again. */
  ghost predicate Retired(p: Pool, session: Session) {
    && session < p.issued && session !in p.checkout && |p.slots| == |p.phases|
    && forall i: nat | i < |p.slots| && p.slots[i].session == Some(session) :: ToReplace(p.slots[i]) && !Lent(p.phases[i])
  }

  // ----- counting

  function CountBusy(slots: seq<Slot>): nat {
    if slots == [] then 0
    else CountBusy(slots[..|slots| - 1]) + if slots[|slots| - 1].busy then 1 else 0
  }

  lemma {:induction false} CountAfterUpdate(slots: seq<Slot>, i: nat, s: Slot)
    requires i < |slots|
    ensures CountBusy(slots[i := s]) == CountBusy(slots) - (if slots[i].busy then 1 else 0) + (if s.busy then 1 else 0)
  {
    var n := |slots| - 1;
    if i == n {
      assert slots[i := s][..n] == slots[..n];
    } else {
      assert slots[i := s][..n] == slots[..n][i := s];
      CountAfterUpdate(slots[..n], i, s);
    }
  }

  lemma {:induction false} CountOfSame(a: seq<Slot>, b: seq<Slot>)
    requires |a| == |b| && forall i | 0 <= i < |a| :: a[i].busy == b[i].busy
    ensures CountBusy(a) == CountBusy(b)
  {
    if a != [] {
      CountOfSame(a[..|a| - 1], b[..|b| - 1]);
    }
  }

  lemma {:induction false} CountOfIdle(slots: seq<Slot>)
    requires forall i | 0 <= i < |slots| :: !slots[i].busy
    ensures CountBusy(slots) == 0
  {
    if slots != [] {
      CountOfIdle(slots[..|slots| - 1]);
    }
  }

  lemma {:induction false} SomeSlotIsIdle(slots: seq<Slot>)
    requires CountBusy(slots) < |slots|
    ensures exists i: nat :: i < |slots| && !slots[i].busy
  {
    var n := |slots| - 1;
    if slots[n].busy {
      SomeSlotIsIdle(slots[..n]);
      var i: nat :| i < n && !slots[..n][i].busy;
      assert !slots[i].busy;
    } else {
      assert !slots[n].busy;
    }
  }

  // ----- the invariant

  predicate Lent(phase: Phase) {
    phase.Guest? || phase.Familia? || phase.Returning?
  }

  predicate SlotOk(cfg: Config, p: Pool, i: nat)
    requires i < |p.slots| && i < |p.phases|
  {
    var s, phase := p.slots[i], p.phases[i];
    && (s.busy <==> !phase.Free?)
    && Tidy(cfg, s)
    && (phase.Preparing? ==> s.disposition != Cooldown)
    && (Lent(phase) ==> Ready(cfg, s))
    && (s.session.Some? ==> s.session.value < p.issued)
    && (phase.Guest? ==> s.session.Some? && s.session.value in p.checkout && p.checkout[s.session.value] == i)
  }

  predicate CheckoutOk(p: Pool, session: Session)
    requires session in p.checkout
  {
    var i := p.checkout[session];
    i < |p.slots| && i < |p.phases| && p.phases[i].Guest? && p.slots[i].session == Some(session)
  }

  ghost predicate Inv(cfg: Config, n: nat, p: Pool) {
    && |p.slots| == |p.phases| == n
    && p.permits >= 0
    && p.permits + CountBusy(p.slots) + p.choosing == n
    && (forall i: nat | i < n :: SlotOk(cfg, p, i))
    && (forall i: nat, j: nat | i < j < n :: p.slots[i].session.Some? ==> p.slots[i].session != p.slots[j].session)
    && (forall session | session in p.checkout :: CheckoutOk(p, session))
  }

  lemma InitialInv(cfg: Config, n: nat, store: map<nat, Bundle>)
    ensures Inv(cfg, n, Initial(n, store))
  {
    CountOfIdle(Initial(n, store).slots);
  }

  lemma PickedKeepsInv(cfg: Config, n: nat, p: Pool, i: nat, s: Slot, guest: bool)
    requires Inv(cfg, n, p) && p.choosing > 0 && i < n && !p.slots[i].busy
    requires s.busy && Tidy(cfg, s) && s.disposition != Cooldown && s.session == p.slots[i].session
    ensures Inv(cfg, n, p.(slots := p.slots[i := s], phases := p.phases[i := Preparing(guest)], choosing := p.choosing - 1))
  {
    var p' := p.(slots := p.slots[i := s], phases := p.phases[i := Preparing(guest)], choosing := p.choosing - 1);
    assert SlotOk(cfg, p, i);
    CountAfterUpdate(p.slots, i, s);
    forall j: nat | j < n ensures SlotOk(cfg, p', j) {
      assert SlotOk(cfg, p, j);
    }
    forall session | session in p'.checkout ensures CheckoutOk(p', session) {
      assert CheckoutOk(p, session);
    }
  }

  lemma ChosenKeepsInv(cfg: Config, n: nat, p: Pool, now: real, guest: bool)
    requires Inv(cfg, n, p) && p.choosing > 0
    ensures Inv(cfg, n, Chosen(p, now, guest))
  {
    var r := FirstFree(p.slots, now, 0);
    if r == None {
      QuietStepKeepsInv(cfg, n, p, Chosen(p, now, guest));
    } else {
      assert SlotOk(cfg, p, r.value);
      PickedKeepsInv(cfg, n, p, r.value, Expired(p.slots[r.value], now).(busy := true, minted := false), guest);
    }
  }

  lemma VacatedKeepsInv(cfg: Config, n: nat, p: Pool, i: nat, c: Cell, lapsed: set<nat>)
    requires Inv(cfg, n, p) && i < n && !p.phases[i].Free? && !p.phases[i].Guest?
    requires Tidy(cfg, c.slot)
    requires c.slot.session == p.slots[i].session || c.slot.session == Some(p.issued) || c.slot.session == Some(p.issued + 1)
    ensures Inv(cfg, n, Vacated(Put(p, i, c).(issued := p.issued + 2, lapsed := lapsed), i))
  {
    var p' := Vacated(Put(p, i, c).(issued := p.issued + 2, lapsed := lapsed), i);
    assert SlotOk(cfg, p, i);
    assert p'.slots == p.slots[i := c.slot.(busy := false)];
    CountAfterUpdate(p.slots, i, c.slot.(busy := false));
    forall j: nat | j < n ensures SlotOk(cfg, p', j) {
      assert SlotOk(cfg, p, j);
    }
    forall session | session in p'.checkout ensures CheckoutOk(p', session) {
      assert CheckoutOk(p, session);
    }
    forall j: nat, k: nat | j < k < n ensures p'.slots[j].session.Some? ==> p'.slots[j].session != p'.slots[k].session {
      assert SlotOk(cfg, p, j) && SlotOk(cfg, p, k);
    }
  }

  lemma FamiliaKeepsInv(cfg: Config, n: nat, p: Pool, i: nat, c: Cell, lapsed: set<nat>)
    requires Inv(cfg, n, p) && i < n && p.phases[i].Preparing?
    requires Tidy(cfg, c.slot) && c.slot.busy && Ready(cfg, c.slot)
    requires c.slot.session == p.slots[i].session || c.slot.session == Some(p.issued) || c.slot.session == Some(p.issued + 1)
    ensures var p1 := Put(p, i, c).(issued := p.issued + 2, lapsed := lapsed);
            Inv(cfg, n, p1.(phases := p1.phases[i := Familia]))
    ensures c.slot.session.value !in p.checkout
  {
    var p1 := Put(p, i, c).(issued := p.issued + 2, lapsed := lapsed);
    var q := p1.(phases := p1.phases[i := Familia]);
    assert SlotOk(cfg, p, i);
    CountAfterUpdate(p.slots, i, c.slot);
    forall session | session in p.checkout ensures CheckoutOk(q, session) && session != c.slot.session.value {
      assert CheckoutOk(p, session);
      assert SlotOk(cfg, p, p.checkout[session]);
    }
    forall j: nat | j < n ensures SlotOk(cfg, q, j) {
      assert SlotOk(cfg, p, j);
    }
    forall j: nat, k: nat | j < k < n ensures p1.slots[j].session.Some? ==> p1.slots[j].session != p1.slots[k].session {
      assert SlotOk(cfg, p, j) && SlotOk(cfg, p, k);
    }
  }

  /** A held slot may as well be a guest's, once its session is registered for it. */
  lemma RegisteredKeepsInv(cfg: Config, n: nat, p: Pool, i: nat)
    requires Inv(cfg, n, p) && i < n && p.phases[i].Familia?
    requires p.slots[i].session.Some? && p.slots[i].session.value !in p.checkout
    ensures Inv(cfg, n, p.(checkout := p.checkout[p.slots[i].session.value := i], phases := p.phases[i := Guest]))
  {
    var g := p.(checkout := p.checkout[p.slots[i].session.value := i], phases := p.phases[i := Guest]);
    assert SlotOk(cfg, p, i);
    forall j: nat | j < n ensures SlotOk(cfg, g, j) {
      assert SlotOk(cfg, p, j);
    }
    forall session | session in g.checkout ensures CheckoutOk(g, session) {
      if session in p.checkout {
        assert CheckoutOk(p, session);
      }
    }
  }

  lemma SlotReturnedKeepsInv(cfg: Config, n: nat, p: Pool, i: nat, how: Return)
    requires Inv(cfg, n, p) && i < n && (p.phases[i].Familia? || p.phases[i].Returning?)
    ensures Inv(cfg, n, SlotReturned(cfg, p, i, how))
  {
    assert SlotOk(cfg, p, i);
    var c := CellOf(p, i);
    ReturnedIsSane(cfg, c, how, p.issued);
    var c' := Returned(cfg, c, how, p.issued).cell;
    VacatedKeepsInv(cfg, n, p, i, c', Accounted(cfg, p.lapsed, i, c.slot, c'.slot, false));
  }

  lemma ReturnIgnoresPhase(cfg: Config, p: Pool, i: nat, how: Return, phase: Phase)
    requires i < |p.slots| && i < |p.phases|
    ensures SlotReturned(cfg, p.(phases := p.phases[i := phase]), i, how) == SlotReturned(cfg, p, i, how)
  {
    assert p.phases[i := phase][i := Phase.Free] == p.phases[i := Phase.Free];
  }

  /** Lending a prepared slot, whatever becomes of the loan. */
  lemma LendingKeepsInv(cfg: Config, n: nat, p: Pool, i: nat, how: Return)
    requires i < n == |p.slots| == |p.phases| && p.slots[i].session.Some? && p.slots[i].session.value !in p.checkout
    requires Inv(cfg, n, p.(phases := p.phases[i := Familia]))
    ensures Inv(cfg, n, p.(checkout := p.checkout[p.slots[i].session.value := i], phases := p.phases[i := Guest]))
    ensures Inv(cfg, n, SlotReturned(cfg, p, i, how))
  {
    var q := p.(phases := p.phases[i := Familia]);
    RegisteredKeepsInv(cfg, n, q, i);
    assert q.phases[i := Guest] == p.phases[i := Guest];
    SlotReturnedKeepsInv(cfg, n, q, i, how);
    ReturnIgnoresPhase(cfg, p, i, how, Familia);
  }

  lemma FinishedKeepsInv(cfg: Config, n: nat, p: Pool, i: nat, prep: Prep, loan: Load)
    requires Inv(cfg, n, p) && i < n && p.phases[i].Preparing?
    ensures Inv(cfg, n, Finished(cfg, p, i, prep, loan))
  {
    assert SlotOk(cfg, p, i);
    var c := CellOf(p, i);
    var o, p1 := Prepared(cfg, c, prep, p.issued), Worked(cfg, p, i, prep);
    PreparedIsSane(cfg, c, prep, p.issued);
    if o.failure.Some? {
      VacatedKeepsInv(cfg, n, p, i, o.cell, p1.lapsed);
    } else {
      FamiliaKeepsInv(cfg, n, p, i, o.cell, p1.lapsed);
      LendingKeepsInv(cfg, n, p1, i, Return(Some(true), None, true, prep.mint, prep.now));
    }
  }

  lemma PoppedKeepsInv(cfg: Config, n: nat, p: Pool, session: Session)
    requires Inv(cfg, n, p)
    ensures Inv(cfg, n, Popped(p, session))
  {
    if session in p.checkout {
      assert CheckoutOk(p, session);
      var p' := Popped(p, session);
      forall j: nat | j < n ensures SlotOk(cfg, p', j) {
        assert SlotOk(cfg, p, j);
      }
      forall t | t in p'.checkout ensures CheckoutOk(p', t) {
        assert CheckoutOk(p, t);
      }
    }
  }

  predicate Stands(cfg: Config, s: Slot, phase: Phase, t: Slot) {
    && t.busy == s.busy && t.session == s.session && Tidy(cfg, t)
    && (phase.Preparing? ==> t.disposition != Cooldown) && (Lent(phase) ==> Ready(cfg, t))
  }

  /** Slots may change otherwise where they stand. */
  lemma ReslottedKeepsInv(cfg: Config, n: nat, p: Pool, slots: seq<Slot>)
    requires Inv(cfg, n, p) && |slots| == n
    requires forall j: nat | j < n :: Stands(cfg, p.slots[j], p.phases[j], slots[j])
    ensures Inv(cfg, n, p.(slots := slots))
  {
    var p' := p.(slots := slots);
    CountOfSame(p.slots, slots);
    forall j: nat | j < n ensures SlotOk(cfg, p', j) {
      assert SlotOk(cfg, p, j);
    }
    forall t | t in p'.checkout ensures CheckoutOk(p', t) {
      assert CheckoutOk(p, t);
    }
  }

  lemma ReportKeepsInv(cfg: Config, n: nat, p: Pool, now: real)
    requires Inv(cfg, n, p)
    ensures Inv(cfg, n, Step(cfg, p, ReportStates(now)))
  {
    var slots := Step(cfg, p, ReportStates(now)).slots;
    forall j: nat | j < n ensures Stands(cfg, p.slots[j], p.phases[j], slots[j]) {
      assert SlotOk(cfg, p, j);
    }
    ReslottedKeepsInv(cfg, n, p, slots);
  }

  lemma AgingKeepsInv(cfg: Config, n: nat, p: Pool, i: nat)
    requires Inv(cfg, n, p) && i < n
    ensures Inv(cfg, n, Step(cfg, p, GrowOld(i)))
  {
    var slots := p.slots[i := p.slots[i].(aged := true)];
    forall j: nat | j < n ensures Stands(cfg, p.slots[j], p.phases[j], slots[j]) {
      assert SlotOk(cfg, p, j);
    }
    ReslottedKeepsInv(cfg, n, p, slots);
  }

  lemma StepKeepsInv(cfg: Config, n: nat, p: Pool, e: Event)
    requires Inv(cfg, n, p)
    ensures Inv(cfg, n, Step(cfg, p, e))
  {
    match e
    case TakePermit => QuietStepKeepsInv(cfg, n, p, Step(cfg, p, e));
    case Choose(now, guest) => if p.choosing > 0 { ChosenKeepsInv(cfg, n, p, now, guest); }
    case Finish(i, prep, loan) => if i < n && p.phases[i].Preparing? { FinishedKeepsInv(cfg, n, p, i, prep, loan); }
    case PopCheckout(session) => PoppedKeepsInv(cfg, n, p, session);
    case GiveBack(i, how) =>
      if i < n && (p.phases[i].Familia? || p.phases[i].Returning?) { SlotReturnedKeepsInv(cfg, n, p, i, how); }
    case ReportStates(now) => ReportKeepsInv(cfg, n, p, now);
    case GrowOld(i) => if i < n { AgingKeepsInv(cfg, n, p, i); }
    case OthersWrite(i, entry) => QuietStepKeepsInv(cfg, n, p, Step(cfg, p, e));
  }

  lemma QuietStepKeepsInv(cfg: Config, n: nat, p: Pool, q: Pool)
    requires Inv(cfg, n, p)
    requires q == p.(permits := q.permits, choosing := q.choosing, store := q.store)
    requires q.permits >= 0 && q.permits + q.choosing == p.permits + p.choosing
    ensures Inv(cfg, n, q)
  {
    forall j: nat | j < n ensures SlotOk(cfg, q, j) {
      assert SlotOk(cfg, p, j);
    }
    forall t | t in q.checkout ensures CheckoutOk(q, t) {
      assert CheckoutOk(p, t);
    }
  }

  lemma {:induction false} RunKeepsInv(cfg: Config, n: nat, store: map<nat, Bundle>, es: seq<Event>)
    ensures Inv(cfg, n, Run(cfg, Initial(n, store), es))
  {
    if es == [] {
      InitialInv(cfg, n, store);
    } else {
      RunKeepsInv(cfg, n, store, es[..|es| - 1]);
      StepKeepsInv(cfg, n, Run(cfg, Initial(n, store), es[..|es| - 1]), es[|es| - 1]);
    }
  }
}
