/** What holds of every run of the session pool. */
module PoolTheorems {
  import opened Base
  import opened SlotLifecycle
  import opened SlotSafety
  import opened SessionPool

  // ----- capacity

  predicate CoolingDown(s: Slot, now: real) {
    s.disposition == Cooldown && now < s.nextProbe
  }

  /** A borrower with a permit is refused exactly when every idle slot is cooling down, and there is an idle slot. */
  lemma RefusedIff(cfg: Config, n: nat, p: Pool, now: real, guest: bool)
    requires Inv(cfg, n, p) && p.choosing > 0
    ensures exists i: nat :: i < n && !p.slots[i].busy
    ensures (forall i: nat | i < n && !p.slots[i].busy :: CoolingDown(p.slots[i], now))
            <==> Chosen(p, now, guest) == p.(choosing := p.choosing - 1, permits := p.permits + 1)
    ensures !(forall i: nat | i < n && !p.slots[i].busy :: CoolingDown(p.slots[i], now))
            ==> exists i: nat :: i < n && !p.slots[i].busy && Chosen(p, now, guest).phases == p.phases[i := Preparing(guest)]
  {
    SomeSlotIsIdle(p.slots);
    forall i: nat | i < n ensures Expired(p.slots[i], now).disposition == Cooldown <==> CoolingDown(p.slots[i], now) {
      assert SlotOk(cfg, p, i);
    }
    var r := FirstFree(p.slots, now, 0);
    if r.Some? {
      assert SlotOk(cfg, p, r.value);
      assert p.phases[r.value] != Chosen(p, now, guest).phases[r.value];
    } else {
      forall i: nat | i < n && !p.slots[i].busy ensures CoolingDown(p.slots[i], now) {
        assert !Choosable(p.slots[i], now);
      }
    }
  }

  /** In every reachable state the permits balance, and two sessions in guests' hands sit on two busy slots. */
  lemma BorrowersHoldDistinctSlots(cfg: Config, n: nat, store: map<nat, Bundle>, es: seq<Event>, s: Session, t: Session)
    requires var p := Run(cfg, Initial(n, store), es); s in p.checkout && t in p.checkout && s != t
    ensures var p := Run(cfg, Initial(n, store), es);
            && |p.slots| == n && p.permits + CountBusy(p.slots) + p.choosing == n
            && p.checkout[s] < n && p.checkout[t] < n && p.checkout[s] != p.checkout[t]
            && p.slots[p.checkout[s]].busy && p.slots[p.checkout[t]].busy
            && p.slots[p.checkout[s]].session == Some(s)
  {
    var p := Run(cfg, Initial(n, store), es);
    RunKeepsInv(cfg, n, store, es);
    assert CheckoutOk(p, s) && CheckoutOk(p, t);
    assert SlotOk(cfg, p, p.checkout[s]) && SlotOk(cfg, p, p.checkout[t]);
  }

  /** A guest's release changes the state if and only if its session is checked out at that moment. */
  lemma ReleaseChangesNothingIff(cfg: Config, n: nat, p: Pool, session: Session)
    requires Inv(cfg, n, p)
    ensures Popped(p, session) == p <==> session !in p.checkout
    ensures Popped(Popped(p, session), session) == Popped(p, session)
  {
    if session in p.checkout {
      assert CheckoutOk(p, session);
      assert session !in Popped(p, session).checkout;
    }
  }

  /** A session that stays good is lent again under the same identity. */
  lemma SameSessionIsLentAgain(cfg: Config, n: nat, p: Pool, i: nat, prep: Prep, loan: Load)
    requires Inv(cfg, n, p) && i < n && p.phases[i] == Preparing(true) && Ready(cfg, p.slots[i])
    requires !Stale(cfg, p.slots[i], prep) && prep.recent
    ensures Finished(cfg, p, i, prep, loan).checkout == p.checkout[p.slots[i].session.value := i]
  {
    assert Prepared(cfg, CellOf(p, i), prep, p.issued) == Outcome(CellOf(p, i), None, false);
  }

  /** Giving back a slot keeps the balance if and only if the slot was busy: a second Familia release is not caught. */
  lemma ReturnBalancesIff(cfg: Config, n: nat, p: Pool, i: nat, how: Return)
    requires Inv(cfg, n, p) && i < n
    ensures var q := SlotReturned(cfg, p, i, how);
            q.permits + CountBusy(q.slots) + q.choosing == n + if p.slots[i].busy then 0 else 1
  {
    var q := SlotReturned(cfg, p, i, how);
    var s := Returned(cfg, CellOf(p, i), how, p.issued).cell.slot;
    assert q.slots == p.slots[i := s.(busy := false)];
    CountAfterUpdate(p.slots, i, s.(busy := false));
  }

  /** A slot lent to Familia, or popped by a guest's release, is free again after the return, with its permit; no other slot,
      phase or checkout changes. */
  lemma GivenBackIsFree(cfg: Config, n: nat, p: Pool, i: nat, how: Return)
    requires Inv(cfg, n, p) && i < n && (p.phases[i].Familia? || p.phases[i].Returning?)
    ensures var q := Step(cfg, p, GiveBack(i, how));
      && |q.slots| == |q.phases| == n && !q.slots[i].busy && q.phases[i].Free? && q.permits == p.permits + 1
      && q.checkout == p.checkout && q.choosing == p.choosing
      && forall j | 0 <= j < n && j != i :: q.slots[j] == p.slots[j] && q.phases[j] == p.phases[j]
  {
  }

  /** A borrow that fails leaves permits, checkouts and all other slots and bundles as they were. */
  lemma FailedBorrowRestores(cfg: Config, n: nat, p: Pool, i: nat, prep: Prep, loan: Load, now: real, guest: bool)
    requires Inv(cfg, n, p) && p.permits > 0
    requires var p1 := Step(cfg, p, TakePermit);
             FirstFree(p1.slots, now, 0) == Some(i) && i < n
             && Prepared(cfg, CellOf(Chosen(p1, now, guest), i), prep, p.issued).failure.Some?
    ensures var q := Step(cfg, Step(cfg, Step(cfg, p, TakePermit), Choose(now, guest)), Finish(i, prep, loan));
            && q.permits == p.permits && q.choosing == p.choosing && q.checkout == p.checkout && q.phases == p.phases
            && |q.slots| == n && (forall j: nat | j < n && j != i :: q.slots[j] == p.slots[j]) && !q.slots[i].busy
            && (forall j: nat | j != i && j in p.store :: j in q.store && q.store[j] == p.store[j])
  {
    assert SlotOk(cfg, p, i);
    var p1 := p.(permits := p.permits - 1, choosing := p.choosing + 1);
    var p2 := p1.(slots := p.slots[i := Expired(p.slots[i], now).(busy := true, minted := false)],
                  phases := p.phases[i := Preparing(guest)], choosing := p.choosing);
    assert Chosen(p1, now, guest) == p2;
    var o := Prepared(cfg, CellOf(p2, i), prep, p.issued);
    var q := Vacated(Worked(cfg, p2, i, prep), i);
    assert Finished(cfg, p2, i, prep, loan) == q;
    assert q.phases == p.phases;
  }

  // ----- loans

  lemma HealthyReturn(cfg: Config, c: Cell, m: MintScript, now: real, id: Session)
    ensures Returned(cfg, c, Return(Some(true), None, true, m, now), id).cell ==
            c.(slot := c.slot.(disposition := Healthy, minted := false, busy := false))
  {
  }

  /** A borrow touches its own slot and bundle only; besides the preparation only the marks of the loan change. */
  lemma FinishedEffect(cfg: Config, p: Pool, i: nat, prep: Prep, loan: Load)
    requires |p.slots| == |p.phases| && i < |p.slots| && p.phases[i].Preparing? && p.slots[i].disposition != Cooldown
    requires Tidy(cfg, p.slots[i])
    ensures var o, q := Prepared(cfg, CellOf(p, i), prep, p.issued), Finished(cfg, p, i, prep, loan);
            && |q.slots| == |q.phases| == |p.slots|
            && q.slots == p.slots[i := o.cell.slot.(busy := q.slots[i].busy, minted := q.slots[i].minted)]
            && q.store == Put(p, i, o.cell).store
            && q.lapsed == Worked(cfg, p, i, prep).lapsed
            && (forall j: nat | j < |p.slots| && j != i :: q.phases[j] == p.phases[j])
            && (o.failure.Some? ==> q.phases[i].Free? && q.slots[i] == o.cell.slot.(busy := false))
  {
    var o := Prepared(cfg, CellOf(p, i), prep, p.issued);
    PreparedIsSane(cfg, CellOf(p, i), prep, p.issued);
    var p1 := Worked(cfg, p, i, prep);
    if o.failure == None && !p.phases[i].guest && loan == Raises {
      HandedBackEffect(cfg, p1, i, prep.mint, prep.now);
      assert p.slots[i := o.cell.slot][i := o.cell.slot.(minted := false, busy := false)]
          == p.slots[i := o.cell.slot.(minted := false, busy := false)];
    }
  }

  lemma HandedBackEffect(cfg: Config, p: Pool, i: nat, m: MintScript, now: real)
    requires |p.slots| == |p.phases| && i < |p.slots| && Ready(cfg, p.slots[i])
    ensures var q := SlotReturned(cfg, p, i, Return(Some(true), None, true, m, now));
            && q.slots == p.slots[i := p.slots[i].(minted := false, busy := false)]
            && q.phases == p.phases[i := Phase.Free] && q.store == p.store && q.lapsed == p.lapsed
  {
    HealthyReturn(cfg, CellOf(p, i), m, now, p.issued);
  }

  /** Nobody else puts bundles into the store, though they may vanish; and no expiry once found reached for the cookies
      of a slot that by now differs from its bundle is later found not reached. */
  ghost predicate SafeStep(cfg: Config, p: Pool, e: Event) {
    match e
    case Finish(i, prep, loan) =>
      cfg.reuse && i in p.lapsed && i < |p.slots| && Ready(cfg, p.slots[i]) && !Agree(cfg, CellOf(p, i)) ==> prep.expired
    case OthersWrite(i, entry) => entry == None
    case _ => true
  }

  ghost predicate SafeRun(cfg: Config, p: Pool, es: seq<Event>) {
    es == [] || (SafeRun(cfg, p, es[..|es| - 1]) && SafeStep(cfg, Run(cfg, p, es[..|es| - 1]), es[|es| - 1]))
  }

  /** A slot agrees with its bundle, or is stale; in a borrower's hands it agrees. */
  ghost predicate Sound(cfg: Config, p: Pool, i: nat)
    requires i < |p.slots| && i < |p.phases|
  {
    var c := CellOf(p, i);
    && (Agree(cfg, c) || c.slot.aged || (cfg.reuse && i in p.lapsed))
    && (Lent(p.phases[i]) ==> Agree(cfg, c))
  }

  ghost predicate AllSound(cfg: Config, n: nat, p: Pool) {
    Inv(cfg, n, p) && forall i: nat | i < n :: Sound(cfg, p, i)
  }

  /** A step on slot `i` leaves the others as they were. */
  lemma OthersStaySound(cfg: Config, n: nat, p: Pool, q: Pool, i: nat)
    requires AllSound(cfg, n, p) && Inv(cfg, n, q) && i < n && Sound(cfg, q, i)
    requires forall j: nat | j < n && j != i :: CellOf(q, j) == CellOf(p, j) && q.phases[j] == p.phases[j] && (j in q.lapsed <==> j in p.lapsed)
    ensures AllSound(cfg, n, q)
  {
    forall j: nat | j < n ensures Sound(cfg, q, j) {
      assert Sound(cfg, p, j);
    }
  }

  lemma FinishIsSound(cfg: Config, n: nat, p: Pool, i: nat, prep: Prep, loan: Load)
    requires AllSound(cfg, n, p) && i < n && p.phases[i].Preparing? && SafeStep(cfg, p, Finish(i, prep, loan))
    ensures AllSound(cfg, n, Finished(cfg, p, i, prep, loan))
  {
    var c := CellOf(p, i);
    assert SlotOk(cfg, p, i) && Sound(cfg, p, i);
    StaleIsNeverLent(cfg, c, prep, p.issued, i in p.lapsed && !Agree(cfg, c));
    FinishedKeepsInv(cfg, n, p, i, prep, loan);
    FinishedEffect(cfg, p, i, prep, loan);
    var o, q := Prepared(cfg, c, prep, p.issued), Finished(cfg, p, i, prep, loan);
    assert CellOf(q, i).entry == o.cell.entry;
    assert Agree(cfg, CellOf(q, i)) <==> Agree(cfg, o.cell);
    OthersStaySound(cfg, n, p, q, i);
  }

  lemma GiveBackIsSound(cfg: Config, n: nat, p: Pool, i: nat, how: Return)
    requires AllSound(cfg, n, p) && i < n && (p.phases[i].Familia? || p.phases[i].Returning?)
    ensures AllSound(cfg, n, SlotReturned(cfg, p, i, how))
  {
    var c := CellOf(p, i);
    assert SlotOk(cfg, p, i) && Sound(cfg, p, i);
    ReturnedAgrees(cfg, c, how, p.issued);
    SlotReturnedKeepsInv(cfg, n, p, i, how);
    var d, q := Returned(cfg, c, how, p.issued).cell, SlotReturned(cfg, p, i, how);
    assert CellOf(q, i) == d.(slot := d.slot.(busy := false));
    OthersStaySound(cfg, n, p, q, i);
  }

  lemma ExpiringIsSound(cfg: Config, p: Pool, q: Pool, i: nat, now: real)
    requires i < |p.slots| == |p.phases| && i < |q.slots| == |q.phases| && Sound(cfg, p, i) && Tidy(cfg, p.slots[i])
    requires CellOf(q, i) == CellOf(p, i).(slot := Expired(p.slots[i], now).(busy := q.slots[i].busy, minted := q.slots[i].minted))
    requires q.lapsed == p.lapsed && (Lent(q.phases[i]) ==> Lent(p.phases[i]))
    ensures Sound(cfg, q, i)
  {
  }

  lemma ChosenIsSound(cfg: Config, n: nat, p: Pool, now: real, guest: bool)
    requires AllSound(cfg, n, p) && p.choosing > 0
    ensures AllSound(cfg, n, Chosen(p, now, guest))
  {
    var q := Chosen(p, now, guest);
    ChosenKeepsInv(cfg, n, p, now, guest);
    var r := FirstFree(p.slots, now, 0);
    if r.Some? {
      assert SlotOk(cfg, p, r.value) && Sound(cfg, p, r.value);
      ExpiringIsSound(cfg, p, q, r.value, now);
      OthersStaySound(cfg, n, p, q, r.value);
    } else {
      forall j: nat | j < n ensures Sound(cfg, q, j) { assert Sound(cfg, p, j); }
    }
  }

  lemma QuietIsSound(cfg: Config, n: nat, p: Pool, e: Event)
    requires AllSound(cfg, n, p) && SafeStep(cfg, p, e)
    requires e.TakePermit? || e.PopCheckout? || e.ReportStates? || e.GrowOld? || e.OthersWrite?
    ensures AllSound(cfg, n, Step(cfg, p, e))
  {
    StepKeepsInv(cfg, n, p, e);
    var q := Step(cfg, p, e);
    forall j: nat | j < n ensures Sound(cfg, q, j) {
      assert SlotOk(cfg, p, j) && Sound(cfg, p, j);
      if e.ReportStates? {
        ExpiringIsSound(cfg, p, q, j, e.now);
      } else if e.PopCheckout? && e.session in p.checkout {
        assert CheckoutOk(p, e.session);
      }
    }
  }

  lemma SafeStepIsSound(cfg: Config, n: nat, p: Pool, e: Event)
    requires AllSound(cfg, n, p) && SafeStep(cfg, p, e)
    ensures AllSound(cfg, n, Step(cfg, p, e))
  {
    match e
    case Choose(now, guest) => if p.choosing > 0 { ChosenIsSound(cfg, n, p, now, guest); }
    case Finish(i, prep, loan) => if i < n && p.phases[i].Preparing? { FinishIsSound(cfg, n, p, i, prep, loan); }
    case GiveBack(i, how) => if i < n && (p.phases[i].Familia? || p.phases[i].Returning?) { GiveBackIsSound(cfg, n, p, i, how); }
    case _ => QuietIsSound(cfg, n, p, e);
  }

  lemma {:induction false} SafeRunIsSound(cfg: Config, n: nat, store: map<nat, Bundle>, es: seq<Event>)
    requires SafeRun(cfg, Initial(n, store), es)
    ensures AllSound(cfg, n, Run(cfg, Initial(n, store), es))
  {
    if es == [] {
      InitialInv(cfg, n, store);
    } else {
      SafeRunIsSound(cfg, n, store, es[..|es| - 1]);
      SafeStepIsSound(cfg, n, Run(cfg, Initial(n, store), es[..|es| - 1]), es[|es| - 1]);
    }
  }

  /** Whoever holds a slot, in any state of a safe run, torn commits or not: the slot is healthy with a live session,
      and the stored bundle carries the token of the address the slot egresses by. */
  lemma LoansMatchTheirAddress(cfg: Config, n: nat, store: map<nat, Bundle>, es: seq<Event>, i: nat)
    requires SafeRun(cfg, Initial(n, store), es)
    requires var p := Run(cfg, Initial(n, store), es); i < |p.slots| && i < |p.phases| && Lent(p.phases[i])
    ensures var p := Run(cfg, Initial(n, store), es);
            && p.slots[i].disposition == Healthy && p.slots[i].session.Some?
            && (i in p.store ==> p.store[i].token == p.slots[i].token && p.slots[i].proxyUrl == UrlOf(cfg, p.store[i].token))
  {
    var p := Run(cfg, Initial(n, store), es);
    SafeRunIsSound(cfg, n, store, es);
    assert SlotOk(cfg, p, i) && Sound(cfg, p, i);
  }

  /** Without revalidation nothing is asked of the clocks. */
  lemma {:induction false} LegacyRunsAreSafe(cfg: Config, p: Pool, es: seq<Event>)
    requires !cfg.reuse && forall e | e in es :: e.OthersWrite? ==> e.entry == None
    ensures SafeRun(cfg, p, es)
  {
    if es != [] {
      assert es[|es| - 1] in es;
      LegacyRunsAreSafe(cfg, p, es[..|es| - 1]);
    }
  }

  // ----- what a release means for the slot

  /** Both ways of saying it are used, and they disagree. */
  predicate Contradicts(how: Return) {
    how.healthy.Some? && how.disposition.Some? && how.disposition.value != (if how.healthy.value then Healthy else Replace)
  }

  predicate Rejects(how: Return) {
    !Contradicts(how) && (how.disposition == Some(Replace) || (how.disposition == None && how.healthy == Some(false)))
  }

  /** A contradictory release is refused and leaves the slot as it was but idle; any other that does not reject the session
      only notes how the slot is to be used next. */
  lemma ReleaseNotes(cfg: Config, p: Pool, i: nat, how: Return)
    requires i < |p.slots| == |p.phases| && !Rejects(how)
    ensures var q, s := SlotReturned(cfg, p, i, how), p.slots[i];
      var noted := if Contradicts(how) then s.disposition else if how.disposition.Some? then how.disposition.value else Healthy;
      && q.slots[i] == s.(disposition := noted, minted := false, busy := false)
      && Returned(cfg, CellOf(p, i), how, p.issued).failure == (if Contradicts(how) then Some(Ordinary) else None)
  {
  }

  /** A mint installs the new session or none, and notes nothing if it fails. */
  lemma MintInstalls(cfg: Config, c: Cell, most: Option<int>, m: MintScript, id: Session)
    ensures var o := Mint(cfg, c, most, m, id);
      && (o.failure == None ==> o.cell.slot.session == Some(id))
      && (o.failure.Some? ==> o.cell.slot.disposition == c.slot.disposition
                              && (o.cell.slot.session == c.slot.session || o.cell.slot.session == Some(id)))
  {
  }

  lemma RemintReplaces(cfg: Config, c: Cell, how: Return, id: Session)
    requires c.slot.disposition == Replace
    ensures var s := Remint(cfg, c, how, id).cell.slot;
      && (s.session == c.slot.session || s.session == Some(id))
      && (s.session == c.slot.session && c.slot.session != Some(id) ==> ToReplace(s))
  {
    MintInstalls(cfg, c, Some(1), how.mint, id);
    MintInstalls(cfg, c, None, how.mint, id);
  }

  lemma RejectedCell(cfg: Config, c: Cell, how: Return, id: Session)
    requires Rejects(how)
    ensures var s := Returned(cfg, c, how, id).cell.slot;
      && (!how.remint || (cfg.reuse && c.slot.minted) ==> s == c.slot.(disposition := Replace, minted := false, busy := false))
      && (s.session == c.slot.session || s.session == Some(id))
      && (s.session == c.slot.session && c.slot.session != Some(id) ==> ToReplace(s))
  {
    if how.remint && !(cfg.reuse && c.slot.minted) {
      RemintReplaces(cfg, c.(slot := c.slot.(disposition := Replace)), how, id);
    }
  }

  /** A rejecting one without a re-mint leaves the slot to be replaced; one with a re-mint either has a new session or is
      to be replaced. */
  lemma ReleaseRejects(cfg: Config, p: Pool, i: nat, how: Return)
    requires i < |p.slots| == |p.phases| && Rejects(how)
    ensures var q, s := SlotReturned(cfg, p, i, how), p.slots[i];
      && (!how.remint || (cfg.reuse && s.minted) ==> q.slots[i] == s.(disposition := Replace, minted := false, busy := false))
      && (q.slots[i].session == s.session || q.slots[i].session == Some(p.issued))
      && (s.session != Some(p.issued) && q.slots[i].session == s.session ==> ToReplace(q.slots[i]))
  {
    RejectedCell(cfg, CellOf(p, i), how, p.issued);
  }

  /** A guest's session given back as rejected is retired at once. */
  lemma RejectedIsRetired(cfg: Config, n: nat, p: Pool, session: Session, how: Return)
    requires Inv(cfg, n, p) && session in p.checkout && Rejects(how)
    ensures Retired(SlotReturned(cfg, Popped(p, session), p.checkout[session], how), session)
  {
    var i := p.checkout[session];
    assert CheckoutOk(p, session);
    assert SlotOk(cfg, p, i);
    ReleaseRejects(cfg, Popped(p, session), i, how);
    var q := SlotReturned(cfg, Popped(p, session), i, how);
    forall j: nat | j < n && j != i ensures q.slots[j].session != Some(session) {
      assert q.slots[j] == p.slots[j] && (j < i || i < j);
    }
  }

  /** What giving back a guest's session does to its slot. */
  ghost predicate ReleasedAs(how: Return, session: Session, i: nat, q: Pool, failure: Option<Failure>) {
    && i < |q.slots| && !q.slots[i].busy
    && (Rejects(how) ==> Retired(q, session))
    && (Contradicts(how) ==> failure == Some(Ordinary) && q.slots[i].disposition == Healthy && q.slots[i].session == Some(session))
    && (!Rejects(how) && !Contradicts(how) ==>
          failure == None && q.slots[i].session == Some(session)
          && q.slots[i].disposition == if how.disposition.Some? then how.disposition.value else Healthy)
  }

  lemma GuestReleasedAs(cfg: Config, n: nat, p: Pool, session: Session, how: Return)
    requires Inv(cfg, n, p) && session in p.checkout
    ensures var i, p1 := p.checkout[session], Popped(p, session);
      && i < |p1.slots| == |p1.phases|
      && ReleasedAs(how, session, i, SlotReturned(cfg, p1, i, how), Returned(cfg, CellOf(p1, i), how, p1.issued).failure)
  {
    assert CheckoutOk(p, session);
    assert SlotOk(cfg, p, p.checkout[session]);
    if Rejects(how) {
      RejectedIsRetired(cfg, n, p, session, how);
    } else {
      ReleaseNotes(cfg, Popped(p, session), p.checkout[session], how);
    }
  }

  // ----- rejected sessions

  /** A preparation that starts from a slot to be replaced lends another session or none, and leaves it to be replaced. */
  lemma RejectedIsReplaced(cfg: Config, c: Cell, prep: Prep, id: Session)
    requires c.slot.disposition == Replace && (c.slot.session.Some? ==> c.slot.session.value < id)
    ensures var o := Prepared(cfg, c, prep, id);
      && (o.failure == None ==> o.cell.slot.session != c.slot.session)
      && (o.cell.slot.session == c.slot.session && c.slot.session.Some? ==> ToReplace(o.cell.slot))
  {
  }

  lemma FinishKeepsRetired(cfg: Config, n: nat, p: Pool, i: nat, prep: Prep, loan: Load, session: Session)
    requires Inv(cfg, n, p) && Retired(p, session) && i < n && p.phases[i].Preparing?
    ensures Retired(Finished(cfg, p, i, prep, loan), session)
  {
    assert SlotOk(cfg, p, i);
    var c := CellOf(p, i);
    var o, q := Prepared(cfg, c, prep, p.issued), Finished(cfg, p, i, prep, loan);
    PreparedIsSane(cfg, c, prep, p.issued);
    if c.slot.disposition == Replace {
      RejectedIsReplaced(cfg, c, prep, p.issued);
    }
    FinishedEffect(cfg, p, i, prep, loan);
    FinishRegisters(cfg, p, i, prep, loan);
  }

  /** Only the session of the prepared slot can be registered. */
  lemma FinishRegisters(cfg: Config, p: Pool, i: nat, prep: Prep, loan: Load)
    requires |p.slots| == |p.phases| && i < |p.slots| && p.phases[i].Preparing?
    ensures var o, q := Prepared(cfg, CellOf(p, i), prep, p.issued), Finished(cfg, p, i, prep, loan);
      && q.issued >= p.issued
      && forall s | s in q.checkout :: s in p.checkout || (o.failure == None && o.cell.slot.session == Some(s))
  {
  }

  lemma GiveBackKeepsRetired(cfg: Config, n: nat, p: Pool, i: nat, how: Return, session: Session)
    requires Inv(cfg, n, p) && Retired(p, session) && i < n && (p.phases[i].Familia? || p.phases[i].Returning?)
    ensures Retired(SlotReturned(cfg, p, i, how), session)
  {
    assert SlotOk(cfg, p, i);
    ReturnedIsSane(cfg, CellOf(p, i), how, p.issued);
  }

  lemma ChoiceKeepsRetired(cfg: Config, n: nat, p: Pool, now: real, guest: bool, session: Session)
    requires Inv(cfg, n, p) && Retired(p, session)
    ensures Retired(Chosen(p, now, guest), session)
  {
  }

  lemma QuietKeepsRetired(cfg: Config, n: nat, p: Pool, e: Event, session: Session)
    requires Inv(cfg, n, p) && Retired(p, session)
    requires e.TakePermit? || e.PopCheckout? || e.ReportStates? || e.GrowOld? || e.OthersWrite?
    ensures Retired(Step(cfg, p, e), session)
  {
    if e.PopCheckout? && e.session in p.checkout {
      assert CheckoutOk(p, e.session);
    }
  }

  lemma StepKeepsRetired(cfg: Config, n: nat, p: Pool, e: Event, session: Session)
    requires Inv(cfg, n, p) && Retired(p, session)
    ensures Retired(Step(cfg, p, e), session)
  {
    match e
    case Choose(now, guest) => if p.choosing > 0 { ChoiceKeepsRetired(cfg, n, p, now, guest, session); }
    case Finish(i, prep, loan) => if i < n && p.phases[i].Preparing? { FinishKeepsRetired(cfg, n, p, i, prep, loan, session); }
    case GiveBack(i, how) =>
      if i < n && (p.phases[i].Familia? || p.phases[i].Returning?) { GiveBackKeepsRetired(cfg, n, p, i, how, session); }
    case _ => QuietKeepsRetired(cfg, n, p, e, session);
  }

  /** A session that was given back for replacement is lent to nobody any more, over any later run of the pool. */
  lemma {:induction false} RejectedIsNeverLent(cfg: Config, n: nat, p: Pool, es: seq<Event>, session: Session)
    requires Inv(cfg, n, p) && Retired(p, session)
    ensures var q := Run(cfg, p, es);
      && Retired(q, session) && session !in q.checkout
      && forall i: nat | i < |q.slots| && i < |q.phases| && Lent(q.phases[i]) :: q.slots[i].session != Some(session)
  {
    if es != [] {
      var before := es[..|es| - 1];
      RejectedIsNeverLent(cfg, n, p, before, session);
      KeepsInv(cfg, n, p, before);
      StepKeepsRetired(cfg, n, Run(cfg, p, before), es[|es| - 1], session);
    }
  }

  lemma {:induction false} KeepsInv(cfg: Config, n: nat, p: Pool, es: seq<Event>)
    requires Inv(cfg, n, p)
    ensures Inv(cfg, n, Run(cfg, p, es))
  {
    if es != [] {
      KeepsInv(cfg, n, p, es[..|es| - 1]);
      StepKeepsInv(cfg, n, Run(cfg, p, es[..|es| - 1]), es[|es| - 1]);
    }
  }

  // ----- a late second Familia release

  /** Whoever releases slot `i` as a healthy one. */
  function Late(cfg: Config, p: Pool, i: nat, m: MintScript, now: real): Pool {
    if i < |p.slots| && i < |p.phases| then SlotReturned(cfg, p, i, Return(Some(true), None, true, m, now)) else p
  }

  /** A guest borrow from permit to loan. */
  function Borrow(cfg: Config, p: Pool, i: nat, now: real, prep: Prep): Pool {
    Step(cfg, Step(cfg, Step(cfg, p, TakePermit), Choose(now, true)), Finish(i, prep, Found))
  }

  /** Slot `i` is ready and idle, and the first that is. */
  ghost predicate NextUp(cfg: Config, p: Pool, i: nat) {
    && i < |p.slots| == |p.phases| && p.permits > 0 && Ready(cfg, p.slots[i]) && !p.slots[i].busy
    && forall j | 0 <= j < i :: p.slots[j].busy
  }

  lemma NextIsBorrowed(cfg: Config, p: Pool, i: nat, now: real, prep: Prep)
    requires NextUp(cfg, p, i) && !Stale(cfg, p.slots[i], prep) && prep.recent
    ensures var q, s := Borrow(cfg, p, i, now, prep), p.slots[i];
      && q.slots == p.slots[i := s.(busy := true, minted := false)] && q.phases == p.phases[i := Guest]
      && q.checkout == p.checkout[s.session.value := i] && q.permits == p.permits - 1
  {
    var r := FirstFree(p.slots, now, 0);
    assert Choosable(p.slots[i], now);
    assert r == Some(i);
    var s := p.slots[i].(busy := true, minted := false);
    var p1 := p.(permits := p.permits - 1, choosing := p.choosing + 1);
    var p2 := p1.(slots := p.slots[i := s], phases := p.phases[i := Preparing(true)], choosing := p.choosing);
    assert Chosen(p1, now, true) == p2;
    assert Prepared(cfg, CellOf(p2, i), prep, p.issued) == Outcome(CellOf(p2, i), None, false);
    assert p2.slots[i := s] == p2.slots;
    assert p2.phases[i := Guest] == p.phases[i := Guest];
  }

  lemma LateIsFree(cfg: Config, p: Pool, i: nat, m: MintScript, now: real)
    requires i < |p.slots| == |p.phases| && Ready(cfg, p.slots[i])
    ensures var q := Late(cfg, p, i, m, now);
      && q.slots == p.slots[i := p.slots[i].(minted := false, busy := false)] && q.permits == p.permits + 1
      && q.phases == p.phases[i := Phase.Free] && q.checkout == p.checkout
  {
    HealthyReturn(cfg, CellOf(p, i), m, now, p.issued);
  }

  /** A release as healthy and the borrow after it, whoever held the slot. */
  lemma ReleasedAndLent(cfg: Config, p: Pool, i: nat, m: MintScript, now: real, prep: Prep) returns (freed: Pool, q: Pool)
    requires i < |p.slots| == |p.phases| && p.permits >= 0 && Ready(cfg, p.slots[i]) && forall j | 0 <= j < i :: p.slots[j].busy
    requires !Stale(cfg, p.slots[i], prep) && prep.recent
    ensures freed == Late(cfg, p, i, m, now) && q == Borrow(cfg, freed, i, now, prep)
    ensures NextUp(cfg, freed, i) && freed.checkout == p.checkout
    ensures q.slots == p.slots[i := p.slots[i].(busy := true, minted := false)] && q.phases == p.phases[i := Guest]
    ensures q.checkout == p.checkout[p.slots[i].session.value := i] && q.permits == p.permits
  {
    LateIsFree(cfg, p, i, m, now);
    freed := Late(cfg, p, i, m, now);
    NextIsBorrowed(cfg, freed, i, now, prep);
    q := Borrow(cfg, freed, i, now, prep);
    assert freed.slots[i := q.slots[i]] == p.slots[i := q.slots[i]];
    assert freed.phases[i := Guest] == p.phases[i := Guest];
  }

  /** Familia releases its slot, a guest borrows it, and Familia releases it once more: the guest's slot is idle again, and
      the next guest is lent the very session the first one holds, after which the pool looks as with one guest. */
  lemma LateReleaseLendsTwice(cfg: Config, n: nat, p: Pool, i: nat, m: MintScript, now: real, prep: Prep)
    returns (first: Pool, freed: Pool, second: Pool)
    requires Inv(cfg, n, p) && i < n && p.phases[i].Familia? && forall j | 0 <= j < i :: p.slots[j].busy
    requires !Stale(cfg, p.slots[i], prep) && prep.recent
    ensures first == Borrow(cfg, Late(cfg, p, i, m, now), i, now, prep)
    ensures freed == Late(cfg, first, i, m, now) && second == Borrow(cfg, freed, i, now, prep)
    ensures NextUp(cfg, freed, i) && |first.slots| == |first.phases| == n
    ensures var session := p.slots[i].session;
      session.Some? && session.value in first.checkout && first.checkout[session.value] == i && freed.checkout == first.checkout
    ensures first.phases[i].Guest? && first.slots[i].session == p.slots[i].session
    ensures second.slots == first.slots && second.phases == first.phases
    ensures second.checkout == first.checkout && second.permits == first.permits
  {
    assert SlotOk(cfg, p, i);
    var q;
    q, first := ReleasedAndLent(cfg, p, i, m, now, prep);
    freed, second := ReleasedAndLent(cfg, first, i, m, now, prep);
  }

  // ----- when exactly a loan does not match

  ghost predicate LoansMatch(cfg: Config, p: Pool) {
    forall i: nat | i < |p.slots| && i < |p.phases| && Lent(p.phases[i]) :: Agree(cfg, CellOf(p, i))
  }

  /** The borrow finishes with a slot whose bundle is another's and that nothing in its preparation makes it replace or check. */
  predicate Mislends(cfg: Config, p: Pool, e: Event) {
    e.Finish? && e.index < |p.slots| && e.index < |p.phases| && p.phases[e.index].Preparing?
    && (p.phases[e.index].guest || e.loan != Raises)
    && var c := CellOf(p, e.index);
       Ready(cfg, c.slot) && !Agree(cfg, c) && !Stale(cfg, c.slot, e.prep) && (cfg.reuse ==> e.prep.recent)
  }

  lemma FinishMislendsIff(cfg: Config, n: nat, p: Pool, i: nat, prep: Prep, loan: Load)
    requires Inv(cfg, n, p) && LoansMatch(cfg, p) && i < n && p.phases[i].Preparing?
    ensures LoansMatch(cfg, Finished(cfg, p, i, prep, loan)) <==> !Mislends(cfg, p, Finish(i, prep, loan))
  {
    var c := CellOf(p, i);
    assert SlotOk(cfg, p, i);
    MismatchIsLentIff(cfg, c, prep, p.issued);
    PreparedIsSane(cfg, c, prep, p.issued);
    FinishedEffect(cfg, p, i, prep, loan);
    var o, q := Prepared(cfg, c, prep, p.issued), Finished(cfg, p, i, prep, loan);
    assert CellOf(q, i).entry == o.cell.entry;
    assert Agree(cfg, CellOf(q, i)) <==> Agree(cfg, o.cell);
    assert Lent(q.phases[i]) <==> o.failure == None && (p.phases[i].guest || loan != Raises);
    forall j: nat | j < n && j != i ensures CellOf(q, j) == CellOf(p, j) && q.phases[j] == p.phases[j] {}
  }

  /** Slots that are lent afterwards were lent before, and are as good as they were. */
  lemma NothingNewIsLent(cfg: Config, p: Pool, q: Pool)
    requires LoansMatch(cfg, p) && |q.slots| == |q.phases| == |p.slots| == |p.phases|
    requires forall i: nat | i < |q.slots| && Lent(q.phases[i]) ::
      Lent(p.phases[i]) && (Agree(cfg, CellOf(p, i)) ==> Agree(cfg, CellOf(q, i)))
    ensures LoansMatch(cfg, q)
  {
  }

  lemma ChosenLendsNothing(cfg: Config, n: nat, p: Pool, now: real, guest: bool)
    requires Inv(cfg, n, p) && LoansMatch(cfg, p)
    ensures LoansMatch(cfg, Chosen(p, now, guest))
  {
    NothingNewIsLent(cfg, p, Chosen(p, now, guest));
  }

  lemma GiveBackLendsNothing(cfg: Config, n: nat, p: Pool, i: nat, how: Return)
    requires Inv(cfg, n, p) && LoansMatch(cfg, p) && i < n
    ensures LoansMatch(cfg, SlotReturned(cfg, p, i, how))
  {
    var q := SlotReturned(cfg, p, i, how);
    assert forall j: nat | j < n && j != i :: CellOf(q, j) == CellOf(p, j) && q.phases[j] == p.phases[j];
    NothingNewIsLent(cfg, p, q);
  }

  lemma QuietLendsNothing(cfg: Config, n: nat, p: Pool, e: Event)
    requires Inv(cfg, n, p) && LoansMatch(cfg, p) && (e.OthersWrite? ==> e.entry == None)
    requires e.TakePermit? || e.PopCheckout? || e.ReportStates? || e.GrowOld? || e.OthersWrite?
    ensures LoansMatch(cfg, Step(cfg, p, e))
  {
    var q := Step(cfg, p, e);
    forall i: nat | i < n && Lent(q.phases[i]) ensures Lent(p.phases[i]) && (Agree(cfg, CellOf(p, i)) ==> Agree(cfg, CellOf(q, i))) {
      assert SlotOk(cfg, p, i);
      if e.PopCheckout? && e.session in p.checkout {
        assert CheckoutOk(p, e.session);
      }
    }
    NothingNewIsLent(cfg, p, q);
  }

  lemma OtherStepsLendNothing(cfg: Config, n: nat, p: Pool, e: Event)
    requires Inv(cfg, n, p) && LoansMatch(cfg, p) && (e.OthersWrite? ==> e.entry == None)
    requires e.Finish? ==> e.index >= n || !p.phases[e.index].Preparing?
    ensures LoansMatch(cfg, Step(cfg, p, e))
  {
    match e
    case Choose(now, guest) => if p.choosing > 0 { ChosenLendsNothing(cfg, n, p, now, guest); }
    case Finish(i, prep, loan) =>
    case GiveBack(i, how) => if i < n { GiveBackLendsNothing(cfg, n, p, i, how); }
    case _ => QuietLendsNothing(cfg, n, p, e);
  }

  /** While nobody else puts bundles into the store, one step makes a borrower hold another slot's bundle exactly when it
      finishes such a borrow. */
  lemma StepMislendsIff(cfg: Config, n: nat, p: Pool, e: Event)
    requires Inv(cfg, n, p) && LoansMatch(cfg, p) && (e.OthersWrite? ==> e.entry == None)
    ensures LoansMatch(cfg, Step(cfg, p, e)) <==> !Mislends(cfg, p, e)
  {
    if e.Finish? && e.index < n && p.phases[e.index].Preparing? {
      FinishMislendsIff(cfg, n, p, e.index, e.prep, e.loan);
    } else {
      OtherStepsLendNothing(cfg, n, p, e);
    }
  }

  /** In every state of the run. */
  ghost predicate AlwaysMatch(cfg: Config, p: Pool, es: seq<Event>) {
    LoansMatch(cfg, Run(cfg, p, es)) && (es == [] || AlwaysMatch(cfg, p, es[..|es| - 1]))
  }

  predicate NeverMislends(cfg: Config, p: Pool, es: seq<Event>) {
    es == [] || (NeverMislends(cfg, p, es[..|es| - 1]) && !Mislends(cfg, Run(cfg, p, es[..|es| - 1]), es[|es| - 1]))
  }

  /** So over whole runs: all loans match in all states reached exactly when no step is such a borrow. */
  lemma {:induction false} LoansMatchIff(cfg: Config, n: nat, store: map<nat, Bundle>, es: seq<Event>)
    requires forall e | e in es :: e.OthersWrite? ==> e.entry == None
    ensures AlwaysMatch(cfg, Initial(n, store), es) <==> NeverMislends(cfg, Initial(n, store), es)
  {
    if es != [] {
      var init, last := es[..|es| - 1], es[|es| - 1];
      assert last in es;
      LoansMatchIff(cfg, n, store, init);
      RunKeepsInv(cfg, n, store, init);
      if LoansMatch(cfg, Run(cfg, Initial(n, store), init)) {
        StepMislendsIff(cfg, n, Run(cfg, Initial(n, store), init), last);
      }
    }
  }

  // ----- lost slots

  /** Slot `i` waits for a validation the store does not back, and nobody holds it. */
  ghost predicate Lost(p: Pool, i: nat) {
    i < |p.slots| && i < |p.phases| && Doomed(CellOf(p, i)) && (p.phases[i].Free? || p.phases[i].Preparing?)
  }

  lemma FinishStaysLost(cfg: Config, n: nat, p: Pool, i: nat, j: nat, prep: Prep, loan: Load)
    requires cfg.reuse && Inv(cfg, n, p) && Lost(p, i) && j < n && p.phases[j].Preparing?
    ensures Lost(Finished(cfg, p, j, prep, loan), i)
  {
    assert SlotOk(cfg, p, i) && SlotOk(cfg, p, j);
    FinishedEffect(cfg, p, j, prep, loan);
    if j == i {
      StuckRefusesEveryBorrow(cfg, CellOf(p, i), prep, p.issued);
    }
  }

  lemma GiveBackStaysLost(cfg: Config, n: nat, p: Pool, i: nat, j: nat, how: Return)
    requires Inv(cfg, n, p) && Lost(p, i) && j < n && (p.phases[j].Familia? || p.phases[j].Returning?)
    ensures Lost(SlotReturned(cfg, p, j, how), i)
  {
    assert CellOf(SlotReturned(cfg, p, j, how), i) == CellOf(p, i);
  }

  lemma StepStaysLost(cfg: Config, n: nat, p: Pool, i: nat, e: Event)
    requires cfg.reuse && Inv(cfg, n, p) && Lost(p, i)
    requires e.OthersWrite? ==> e.index != i
    ensures Lost(Step(cfg, p, e), i)
  {
    assert SlotOk(cfg, p, i);
    match e
    case Finish(j, prep, loan) => if j < n && p.phases[j].Preparing? { FinishStaysLost(cfg, n, p, i, j, prep, loan); }
    case GiveBack(j, how) =>
      if j < n && (p.phases[j].Familia? || p.phases[j].Returning?) { GiveBackStaysLost(cfg, n, p, i, j, how); }
    case PopCheckout(session) => if session in p.checkout { assert CheckoutOk(p, session); }
    case _ =>
  }

  /** A lost slot is never lent again, whatever happens, unless another process rewrites its bundle. */
  lemma {:induction false} LostForGood(cfg: Config, n: nat, p: Pool, i: nat, es: seq<Event>)
    requires cfg.reuse && Inv(cfg, n, p) && Lost(p, i)
    requires forall e | e in es :: e.OthersWrite? ==> e.index != i
    ensures Inv(cfg, n, Run(cfg, p, es)) && Lost(Run(cfg, p, es), i)
  {
    if es != [] {
      var before := es[..|es| - 1];
      LostForGood(cfg, n, p, i, before);
      assert es[|es| - 1] in es;
      StepKeepsInv(cfg, n, Run(cfg, p, before), es[|es| - 1]);
      StepStaysLost(cfg, n, Run(cfg, p, before), i, es[|es| - 1]);
    }
  }

  /** How it comes to that without anybody else: after a restart, any failure of the first slot's first validation. */
  lemma FailedStartupLosesTheSlot(cfg: Config, n: nat, store: map<nat, Bundle>, prep: Prep, loan: Load, now: real, guest: bool)
    requires cfg.reuse && n > 0 && 0 in store
    requires CleanPrep(prep) && StartupValidation(cfg, Cell(FRESH, Some(store[0])), prep)
    requires Prepared(cfg, Cell(FRESH.(busy := true), Some(store[0])), prep, 0).failure.Some?
    ensures var p := Initial(n, store);
            Lost(Step(cfg, Step(cfg, Step(cfg, p, TakePermit), Choose(now, guest)), Finish(0, prep, loan)), 0)
  {
    var p := Initial(n, store);
    InitialInv(cfg, n, store);
    var p1 := p.(permits := n - 1, choosing := 1);
    var p2 := p1.(slots := p.slots[0 := FRESH.(busy := true)], phases := p.phases[0 := Preparing(guest)], choosing := 0);
    assert FirstFree(p1.slots, now, 0) == Some(0);
    assert Chosen(p1, now, guest) == p2;
    SticksIff(cfg, CellOf(p2, 0), prep, 0);
    FinishedEffect(cfg, p2, 0, prep, loan);
  }

  /** A slot lost at startup has no `saved_at` of its own, so not even another writer of its bundle can bring it back. */
  lemma {:induction false} LostAtStartupIsFinal(cfg: Config, n: nat, p: Pool, i: nat, es: seq<Event>)
    requires cfg.reuse && Inv(cfg, n, p) && Lost(p, i) && p.slots[i].savedAt == None
    ensures var q := Run(cfg, p, es); Inv(cfg, n, q) && Lost(q, i) && q.slots[i].savedAt == None
  {
    if es != [] {
      var before, e := es[..|es| - 1], es[|es| - 1];
      LostAtStartupIsFinal(cfg, n, p, i, before);
      StepKeepsInv(cfg, n, Run(cfg, p, before), e);
      StepKeepsStartupLoss(cfg, n, Run(cfg, p, before), i, e);
    }
  }

  lemma StepKeepsStartupLoss(cfg: Config, n: nat, p: Pool, i: nat, e: Event)
    requires cfg.reuse && Inv(cfg, n, p) && Lost(p, i) && p.slots[i].savedAt == None
    ensures Lost(Step(cfg, p, e), i) && Step(cfg, p, e).slots[i].savedAt == None
  {
    assert SlotOk(cfg, p, i);
    if !(e.OthersWrite? && e.index == i) {
      StepStaysLost(cfg, n, p, i, e);
    }
    match e
    case Finish(j, prep, loan) =>
      if j < n && p.phases[j].Preparing? {
        assert SlotOk(cfg, p, j);
        FinishedEffect(cfg, p, j, prep, loan);
        if j == i { StuckRefusesEveryBorrow(cfg, CellOf(p, i), prep, p.issued); }
      }
    case _ =>
  }

  // ----- why a preparation may be one step

  /** What a preparation works on is nobody else's: no other step of the pool, and no other process that leaves its bundle
      alone, changes the slot being prepared or its bundle, except that it may grow old meanwhile. */
  lemma PreparedSlotIsPrivate(cfg: Config, n: nat, p: Pool, i: nat, e: Event)
    requires Inv(cfg, n, p) && i < n && p.phases[i].Preparing?
    requires !(e.Finish? && e.index == i) && !(e.OthersWrite? && e.index == i)
    ensures var q := Step(cfg, p, e);
            && i < |q.slots| && i < |q.phases| && q.phases[i] == p.phases[i]
            && CellOf(q, i) == CellOf(p, i).(slot := p.slots[i].(aged := q.slots[i].aged))
            && (!(e.GrowOld? && e.index == i) ==> CellOf(q, i) == CellOf(p, i))
  {
    assert SlotOk(cfg, p, i);
    match e
    case Finish(j, prep, loan) => if j < n && p.phases[j].Preparing? { FinishElsewhere(cfg, n, p, i, j, prep, loan); }
    case GiveBack(j, how) =>
      if j < n && (p.phases[j].Familia? || p.phases[j].Returning?) { GiveBackElsewhere(cfg, p, i, j, how); }
    case PopCheckout(session) => if session in p.checkout { assert CheckoutOk(p, session); }
    case Choose(now, guest) => ChoiceElsewhere(cfg, p, i, now, guest);
    case _ =>
  }

  lemma ChoiceElsewhere(cfg: Config, p: Pool, i: nat, now: real, guest: bool)
    requires i < |p.slots| && i < |p.phases| && p.slots[i].busy
    ensures var q := Chosen(p, now, guest);
            i < |q.slots| && i < |q.phases| && q.phases[i] == p.phases[i] && CellOf(q, i) == CellOf(p, i)
  {
  }

  lemma GiveBackElsewhere(cfg: Config, p: Pool, i: nat, j: nat, how: Return)
    requires |p.slots| == |p.phases| && i < |p.slots| && j < |p.slots| && i != j
    ensures var q := SlotReturned(cfg, p, j, how);
            i < |q.slots| && i < |q.phases| && q.phases[i] == p.phases[i] && CellOf(q, i) == CellOf(p, i)
  {
  }

  lemma FinishElsewhere(cfg: Config, n: nat, p: Pool, i: nat, j: nat, prep: Prep, loan: Load)
    requires Inv(cfg, n, p) && i < n && j < n && i != j && p.phases[j].Preparing?
    ensures var q := Finished(cfg, p, j, prep, loan);
            i < |q.slots| && i < |q.phases| && q.phases[i] == p.phases[i] && CellOf(q, i) == CellOf(p, i)
  {
    assert SlotOk(cfg, p, j);
    FinishedEffect(cfg, p, j, prep, loan);
  }

  /** A stuck slot fails its borrower and is vacated as it was. */
  lemma StuckSlotIsVacated(cfg: Config, p: Pool, i: nat, prep: Prep, loan: Load)
    requires cfg.reuse && i < |p.slots| == |p.phases| && p.phases[i].Preparing? && Stuck(CellOf(p, i))
    ensures Finished(cfg, p, i, prep, loan) == Vacated(p.(issued := p.issued + 2), i)
  {
    StuckRefusesEveryBorrow(cfg, CellOf(p, i), prep, p.issued);
    assert !Ready(cfg, p.slots[i]);
    assert p.slots[i := p.slots[i]] == p.slots;
    assert Put(p, i, CellOf(p, i)) == p;
  }

  /** While the first slot is lost and free, a borrower that runs alone is refused, however many good slots follow. */
  lemma LostFirstSlotRefusesEveryone(cfg: Config, n: nat, p: Pool, prep: Prep, loan: Load, now: real, guest: bool)
    requires cfg.reuse && Inv(cfg, n, p) && p.permits > 0
    requires n > 0 && p.phases[0].Free? && Stuck(CellOf(p, 0))
    ensures var q := Step(cfg, Step(cfg, Step(cfg, p, TakePermit), Choose(now, guest)), Finish(0, prep, loan));
            q == p.(issued := p.issued + 2, slots := p.slots[0 := p.slots[0].(minted := false)])
  {
    assert SlotOk(cfg, p, 0);
    var p1 := p.(permits := p.permits - 1, choosing := p.choosing + 1);
    var p2 := p1.(slots := p.slots[0 := p.slots[0].(busy := true, minted := false)],
                  phases := p.phases[0 := Preparing(guest)], choosing := p.choosing);
    assert Step(cfg, p, TakePermit) == p1;
    FirstIsChosen(p1, now, guest);
    assert Step(cfg, p1, Choose(now, guest)) == p2;
    StuckSlotIsVacated(cfg, p2, 0, prep, loan);
    TakenAndVacated(p, guest);
  }

  /** Taking an idle slot and giving it up again. */
  lemma TakenAndVacated(p: Pool, guest: bool)
    requires |p.slots| > 0 && |p.phases| > 0 && !p.slots[0].busy && p.phases[0].Free?
    ensures var p2 := p.(permits := p.permits - 1, slots := p.slots[0 := p.slots[0].(busy := true, minted := false)],
                         phases := p.phases[0 := Preparing(guest)], issued := p.issued + 2);
            Vacated(p2, 0) == p.(issued := p.issued + 2, slots := p.slots[0 := p.slots[0].(minted := false)])
  {
    assert p.phases[0 := Preparing(guest)][0 := Phase.Free] == p.phases;
    assert p.slots[0 := p.slots[0].(busy := true, minted := false)][0 := p.slots[0].(minted := false)]
        == p.slots[0 := p.slots[0].(minted := false)];
  }

  lemma FirstIsChosen(p: Pool, now: real, guest: bool)
    requires |p.slots| > 0 && |p.phases| > 0 && p.choosing > 0 && !p.slots[0].busy && p.slots[0].disposition != Cooldown
    ensures Chosen(p, now, guest) == p.(slots := p.slots[0 := p.slots[0].(busy := true, minted := false)],
                                        phases := p.phases[0 := Preparing(guest)], choosing := p.choosing - 1)
  {
    assert FirstFree(p.slots, now, 0) == Some(0);
  }

  // ----- a store nobody else touches

  predicate CleanEvent(e: Event) {
    match e
    case Finish(i, prep, loan) => CleanPrep(prep)
    case GiveBack(i, how) => CleanMint(how.mint)
    case OthersWrite(i, entry) => false
    case _ => true
  }

  ghost predicate AllFollow(cfg: Config, n: nat, p: Pool) {
    Inv(cfg, n, p) && forall i: nat | i < n :: FollowsStore(cfg, CellOf(p, i))
  }

  lemma CleanStepFollows(cfg: Config, n: nat, p: Pool, e: Event)
    requires AllFollow(cfg, n, p) && CleanEvent(e)
    ensures AllFollow(cfg, n, Step(cfg, p, e))
  {
    StepKeepsInv(cfg, n, p, e);
    var q := Step(cfg, p, e);
    forall j: nat | j < n ensures FollowsStore(cfg, CellOf(q, j)) {
      assert FollowsStore(cfg, CellOf(p, j));
      if e.Finish? && e.index < n && p.phases[e.index].Preparing? {
        CleanFinishFollows(cfg, n, p, e.index, e.prep, e.loan, j);
      } else if e.GiveBack? && e.index < n {
        CleanReturnFollows(cfg, CellOf(p, j), e.how, p.issued);
      }
    }
  }

  lemma CleanFinishFollows(cfg: Config, n: nat, p: Pool, i: nat, prep: Prep, loan: Load, j: nat)
    requires AllFollow(cfg, n, p) && CleanPrep(prep) && i < n && p.phases[i].Preparing? && j < n
    ensures j < |Finished(cfg, p, i, prep, loan).slots| && FollowsStore(cfg, CellOf(Finished(cfg, p, i, prep, loan), j))
  {
    var c := CellOf(p, i);
    assert FollowsStore(cfg, c) && FollowsStore(cfg, CellOf(p, j));
    CleanPreparationFollows(cfg, c, prep, p.issued);
    var o := Prepared(cfg, c, prep, p.issued);
    var q := Finished(cfg, p, i, prep, loan);
    if j != i {
      assert CellOf(q, j) == CellOf(p, j);
    } else {
      var p1 := Worked(cfg, p, i, prep);
      assert CellOf(p1, i) == o.cell;
      CleanReturnFollows(cfg, o.cell, Return(Some(true), None, true, prep.mint, prep.now), p1.issued);
    }
  }

  /** If nobody else writes the store and commits are clean, every slot's bundle stays the one stored under its index. */
  lemma {:induction false} CleanRunFollows(cfg: Config, n: nat, store: map<nat, Bundle>, es: seq<Event>)
    requires forall e | e in es :: CleanEvent(e)
    ensures AllFollow(cfg, n, Run(cfg, Initial(n, store), es))
  {
    if es == [] {
      InitialInv(cfg, n, store);
    } else {
      CleanRunFollows(cfg, n, store, es[..|es| - 1]);
      assert es[|es| - 1] in es;
      CleanStepFollows(cfg, n, Run(cfg, Initial(n, store), es[..|es| - 1]), es[|es| - 1]);
    }
  }

  lemma RunAppends(cfg: Config, p: Pool, es: seq<Event>, e: Event)
    ensures Run(cfg, p, []) == p && Run(cfg, p, es + [e]) == Step(cfg, Run(cfg, p, es), e)
  {
    assert (es + [e])[..|es|] == es;
  }
}
