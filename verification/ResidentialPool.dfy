/** The session pool as an object: its methods update slots in place, and do what the steps of the state machine say. */
module ResidentialPool {
  import opened Base
  import opened SlotLifecycle
  import opened SlotSafety
  import opened SessionPool
  import opened PoolTheorems

  /** Looking at a slot that is still cooling down changes nothing. */
  lemma StillCooling(cfg: Config, n: nat, p: Pool, k: nat, now: real)
    requires Inv(cfg, n, p) && k < n && Expired(p.slots[k], now).disposition == Cooldown
    ensures p.slots[k := Expired(p.slots[k], now)] == p.slots
  {
    assert SlotOk(cfg, p, k);
  }

  class ResidentialPool {
    const cfg: Config
    var slots: seq<Slot>
    var permits: int
    var checkout: map<Session, nat>
    var store: map<nat, Bundle>
    var issued: Session
    var mintAttempts: nat
    var mintFailures: nat
    /** Where each slot's owner is, and how many borrowers have a permit but no slot. */
    ghost var phases: seq<Phase>
    ghost var choosing: nat
    ghost var lapsed: set<nat>

    ghost function Now(): Pool
      reads this
    {
      Pool(slots, phases, permits, choosing, checkout, store, issued, lapsed)
    }

    ghost predicate Valid()
      reads this
    {
      Inv(cfg, |slots|, Now())
    }

    constructor (cfg: Config, n: nat, stored: map<nat, Bundle>)
      ensures Valid() && this.cfg == cfg && Now() == Initial(n, stored)
      ensures mintAttempts == mintFailures == 0
    {
      this.cfg := cfg;
      slots := seq(n, i => FRESH);
      permits, checkout, store, issued := n, map[], stored, 0;
      mintAttempts, mintFailures := 0, 0;
      phases, choosing, lapsed := seq(n, i => Phase.Free), 0, {};
      new;
      InitialInv(cfg, n, stored);
    }

    // ----- preparing slot `i`

    /** One attempt after the other, each behind a new address, until one succeeds or there is no point in going on. */
    method BuildCandidate(tries: seq<Try>, attempts: nat) returns (failure: Option<Failure>)
      requires 1 <= attempts
      modifies `mintAttempts, `mintFailures
      ensures failure == Build(tries, 0, attempts).failure
      ensures mintAttempts == old(mintAttempts) + Build(tries, 0, attempts).started
      ensures mintFailures == old(mintFailures) + Build(tries, 0, attempts).failed
    {
      var k := 0;
      while true
        invariant k < attempts
        invariant Build(tries, k, attempts).failure == Build(tries, 0, attempts).failure
        invariant mintAttempts - old(mintAttempts) + Build(tries, k, attempts).started == Build(tries, 0, attempts).started
        invariant mintFailures - old(mintFailures) + Build(tries, k, attempts).failed == Build(tries, 0, attempts).failed
        decreases attempts - k
      {
        var t := TryAt(tries, k);
        if t.lateAtStart {
          return Some(Ordinary);
        }
        mintAttempts := mintAttempts + 1;
        if t.trouble == None {
          return None;
        }
        mintFailures := mintFailures + 1;
        if t.trouble.value.Refused? {
          return Some(t.trouble.value.failure);
        }
        if t.lateAtEnd || k + 1 == attempts {
          return Some(Ordinary);
        }
        if t.napCancelled {
          return Some(Cancelled);
        }
        k := k + 1;
      }
    }

    method MintSlot(i: nat, most: Option<int>, m: MintScript, id: Session) returns (failure: Option<Failure>)
      requires i < |slots|
      modifies this
      ensures Now() == Put(old(Now()), i, Mint(cfg, old(CellOf(Now(), i)), most, m, id).cell)
      ensures failure == Mint(cfg, old(CellOf(Now(), i)), most, m, id).failure
    {
      PutSame(Now(), i);
      failure := BuildCandidate(m.tries, Attempts(cfg, most));
      if failure == None {
        failure := CommitCandidate(i, m, id);
      }
    }

    /** Commit before swap: the store is written first, and what cannot be read back is not installed. */
    method CommitCandidate(i: nat, m: MintScript, id: Session) returns (failure: Option<Failure>)
      requires i < |slots|
      modifies `slots, `store
      ensures Now() == Put(old(Now()), i, Committed(cfg, old(CellOf(Now(), i)), m, id).cell)
      ensures failure == Committed(cfg, old(CellOf(Now(), i)), m, id).failure
    {
      PutSame(Now(), i);
      var bundle := NewBundle(cfg, m);
      if m.commit.SaveRaised? {
        if m.commit.kept {
          store := store[i := bundle];
        }
        return Some(Closing(m.commit.cancelled));
      }
      store := store[i := bundle];
      var replaced := slots[i];
      slots := slots[i := replaced.(token := bundle.token, proxyUrl := UrlOf(cfg, bundle.token), session := Some(id),
                                    aged := cfg.reuse && replaced.aged)];
      if cfg.reuse {
        if m.commit.ReadBackRaised? {
          return Some(Ordinary);
        }
        if m.commit.ReadBackNone? {
          if !m.commit.kept {
            store := store - {i};
          }
          slots := slots[i := replaced];
          assert old(store)[i := bundle] - {i} == old(store) - {i};
          return Some(Closing(m.commit.cancelled));
        }
        slots := slots[i := Anchored(slots[i], bundle.savedAt)];
      }
      slots := slots[i := MarkHealthy(slots[i])];
      failure := None;
    }

    method MintOnceForAcquisition(i: nat, m: MintScript, now: real, id: Session) returns (failure: Option<Failure>)
      requires i < |slots|
      modifies this
      ensures Now() == Put(old(Now()), i, MintOnce(cfg, old(CellOf(Now(), i)), m, now, id).cell)
      ensures failure == MintOnce(cfg, old(CellOf(Now(), i)), m, now, id).failure
    {
      failure := MintSlot(i, Some(1), m, id);
      CellOfPut(old(Now()), i, Mint(cfg, old(CellOf(Now(), i)), Some(1), m, id).cell);
      if failure == Some(Ordinary) {
        slots := slots[i := EnterCooldown(cfg, slots[i], now)];
      } else if failure == None {
        slots := slots[i := MarkHealthy(slots[i]).(minted := true)];
      }
    }

    method RevalidateBundle(i: nat, bundle: Bundle, v: ValidateScript, id: Session) returns (verdict: Verdict)
      requires i < |slots|
      modifies this
      ensures Now() == Put(old(Now()), i, Revalidate(cfg, old(CellOf(Now(), i)), bundle, v, id).0)
      ensures verdict == Revalidate(cfg, old(CellOf(Now(), i)), bundle, v, id).1
    {
      PutSame(Now(), i);
      if cfg.proxy && NoToken(bundle.token) {
        return Unclear;
      }
      match v.probe {
        case Stopped(f) => return Closed(v, HardStop(f));
        case Rejected => return Closed(v, WasRejected);
        case Inconclusive => return Closed(v, Unclear);
        case Passed =>
      }
      var current := if v.meanwhile.Some? then v.meanwhile.value else if i in store then Some(store[i]) else None;
      var (replaced, ok) := ReplaceIfCurrent(current, bundle.savedAt, bundle.token, v.cookies);
      if v.cas.CasRaised? {
        Write(i, if v.cas.kept then replaced else current);
        return Closed(v, if v.cas.hard then HardStop(Ordinary) else Unclear);
      }
      Write(i, replaced);
      if !ok {
        return Closed(v, HardStop(Ordinary));
      }
      slots := slots[i := slots[i].(token := bundle.token, proxyUrl := UrlOf(cfg, bundle.token), session := Some(id))];
      slots := slots[i := MarkHealthy(Anchored(slots[i], bundle.savedAt))];
      verdict := Confirmed;
    }

    method Write(i: nat, entry: Option<Bundle>)
      requires i < |slots|
      modifies `store
      ensures Now() == Put(old(Now()), i, Cell(slots[i], entry))
    {
      store := if entry.Some? then store[i := entry.value] else store - {i};
      assert slots == slots[i := slots[i]];
    }

    method RevalidateOrMintOnce(i: nat, bundle: Bundle, p: Prep, id: Session) returns (failure: Option<Failure>, minted: bool)
      requires i < |slots|
      modifies this
      ensures Now() == Put(old(Now()), i, RevalidateOrMint(cfg, old(CellOf(Now(), i)), bundle, p, id).cell)
      ensures failure == RevalidateOrMint(cfg, old(CellOf(Now(), i)), bundle, p, id).failure
      ensures minted == RevalidateOrMint(cfg, old(CellOf(Now(), i)), bundle, p, id).minted
    {
      ghost var before, c := Now(), CellOf(Now(), i);
      slots := slots[i := slots[i].(disposition := Validate)];
      ghost var quarantined := c.(slot := c.slot.(disposition := Validate));
      PutSame(before, i);
      assert Now() == Put(before, i, quarantined);
      var verdict := RevalidateBundle(i, bundle, p.check, id);
      ghost var c' := Revalidate(cfg, quarantined, bundle, p.check, id).0;
      PutPut(before, i, quarantined, c');
      CellOfPut(before, i, c');
      minted := false;
      match verdict {
        case Confirmed => failure := None;
        case HardStop(f) => failure := Some(f);
        case Unclear =>
          slots := slots[i := EnterCooldown(cfg, slots[i], p.now)];
          failure := Some(Ordinary);
        case WasRejected =>
          failure := MintOnceForAcquisition(i, p.mint, p.now, id + 1);
          PutPut(before, i, c', MintOnce(cfg, c', p.mint, p.now, id + 1).cell);
          minted := failure == None;
      }
    }

    method InitializeReuseSlot(i: nat, p: Prep, id: Session) returns (failure: Option<Failure>, minted: bool)
      requires i < |slots|
      modifies this
      ensures Now() == Put(old(Now()), i, Initialize(cfg, old(CellOf(Now(), i)), p, id).cell)
      ensures failure == Initialize(cfg, old(CellOf(Now(), i)), p, id).failure
      ensures failure == None ==> minted == Initialize(cfg, old(CellOf(Now(), i)), p, id).minted
    {
      PutSame(Now(), i);
      if p.load == Raises {
        return Some(Ordinary), false;
      }
      var bundle := if p.load == Found && i in store then Some(store[i]) else None;
      assert bundle == Loaded(CellOf(Now(), i), p.load);
      if bundle == None || (cfg.proxy && NoToken(bundle.value.token)) || p.bundleStale {
        failure := MintSlot(i, Some(1), p.mint, id);
        return failure, true;
      }
      failure, minted := RevalidateOrMintOnce(i, bundle.value, p, id);
    }

    method ValidateStoredBundle(i: nat, p: Prep, id: Session) returns (failure: Option<Failure>, minted: bool)
      requires i < |slots|
      modifies this
      ensures Now() == Put(old(Now()), i, ValidateStored(cfg, old(CellOf(Now(), i)), p, id).cell)
      ensures failure == ValidateStored(cfg, old(CellOf(Now(), i)), p, id).failure
      ensures minted == ValidateStored(cfg, old(CellOf(Now(), i)), p, id).minted
    {
      PutSame(Now(), i);
      if p.load == Raises {
        return Some(Ordinary), false;
      }
      var bundle := if p.load == Found && i in store then Some(store[i]) else None;
      if bundle == None || slots[i].savedAt != Some(bundle.value.savedAt) || slots[i].token != bundle.value.token {
        return Some(Ordinary), false;
      }
      failure, minted := RevalidateOrMintOnce(i, bundle.value, p, id);
    }

    method PrepareReuseSlot(i: nat, p: Prep, id: Session) returns (failure: Option<Failure>)
      requires i < |slots|
      modifies this
      ensures Now() == Put(old(Now()), i, PrepareReuse(cfg, old(CellOf(Now(), i)), p, id).cell)
      ensures failure == PrepareReuse(cfg, old(CellOf(Now(), i)), p, id).failure
    {
      ghost var before, c := Now(), CellOf(Now(), i);
      var minted: bool;
      if slots[i].disposition == Validate {
        failure, minted := ValidateStoredBundle(i, p, id);
        CellOfPut(before, i, ValidateStored(cfg, c, p, id).cell);
      } else if slots[i].disposition == Replace {
        failure := MintOnceForAcquisition(i, p.mint, p.now, id);
        return;
      } else if slots[i].session == None || slots[i].savedAt == None {
        failure, minted := InitializeReuseSlot(i, p, id);
        CellOfPut(before, i, Initialize(cfg, c, p, id).cell);
      } else if p.expired || slots[i].aged {
        failure := MintOnceForAcquisition(i, p.mint, p.now, id);
        return;
      } else if p.recent {
        PutSame(before, i);
        return None;
      } else {
        failure, minted := ValidateStoredBundle(i, p, id);
        CellOfPut(before, i, ValidateStored(cfg, c, p, id).cell);
      }
      if failure == None {
        slots := slots[i := slots[i].(minted := minted)];
      }
    }

    method PrepareLegacySlot(i: nat, p: Prep, id: Session) returns (failure: Option<Failure>)
      requires i < |slots|
      modifies this
      ensures Now() == Put(old(Now()), i, PrepareLegacy(cfg, old(CellOf(Now(), i)), p, id).cell)
      ensures failure == PrepareLegacy(cfg, old(CellOf(Now(), i)), p, id).failure
    {
      ghost var before, c := Now(), CellOf(Now(), i);
      PutSame(before, i);
      ghost var c0 := c;
      if slots[i].disposition == Validate {
        slots := slots[i := slots[i].(disposition := Replace)];
        c0 := c.(slot := c.slot.(disposition := Replace));
      }
      assert Now() == Put(before, i, c0);
      CellOfPut(before, i, c0);
      if slots[i].disposition != Replace && slots[i].session != None && !slots[i].aged {
        return None;
      }
      failure := MintSlot(i, None, p.mint, id);
      ghost var o := Mint(cfg, c0, None, p.mint, id);
      PutPut(before, i, c0, o.cell);
      CellOfPut(before, i, o.cell);
      if failure == Some(Ordinary) {
        slots := slots[i := EnterCooldown(cfg, slots[i], p.now)];
      } else if failure == None {
        slots := slots[i := MarkHealthy(slots[i])];
      }
    }

    // ----- checkout

    method TakeSlot(k: nat, seen: Slot, ghost guest: bool)
      requires k < |slots| == |phases| && choosing > 0
      modifies this
      ensures Now() == old(Now()).(slots := old(slots)[k := seen.(busy := true, minted := false)],
                                   phases := old(phases)[k := Preparing(guest)], choosing := old(choosing) - 1)
    {
      slots := slots[k := seen.(busy := true, minted := false)];
      phases := phases[k := Preparing(guest)];
      choosing := choosing - 1;
    }

    /** One slot after the other. */
    method Scan(now: real, ghost guest: bool) returns (r: Option<nat>)
      requires Valid() && choosing > 0
      modifies this
      ensures Now() == Chosen(old(Now()), now, guest) && r == FirstFree(old(slots), now, 0)
    {
      var k := 0;
      while k < |slots|
        invariant k <= |slots| && Now() == old(Now())
        invariant FirstFree(slots, now, k) == FirstFree(slots, now, 0)
      {
        if !slots[k].busy {
          var seen := Expired(slots[k], now);
          if seen.disposition != Cooldown {
            assert FirstFree(old(slots), now, 0) == Some(k);
            TakeSlot(k, seen, guest);
            return Some(k);
          }
          StillCooling(cfg, |slots|, Now(), k, now);
          slots := slots[k := seen];
        }
        k := k + 1;
      }
      permits := permits + 1;
      choosing := choosing - 1;
      r := None;
    }

    /** The first idle slot that is not cooling down; scanning ends cooldowns that are over. Nobody is waited for. */
    method ChooseSlot(now: real, ghost guest: bool) returns (r: Option<nat>)
      requires Valid() && choosing > 0
      modifies this
      ensures Valid() && Now() == Chosen(old(Now()), now, guest)
      ensures r == FirstFree(old(slots), now, 0)
    {
      ChosenKeepsInv(cfg, |slots|, Now(), now, guest);
      r := Scan(now, guest);
    }

    /** Prepares a chosen slot; on any failure the slot is idle again and its permit is back. */
    method PrepareChosen(i: nat, p: Prep) returns (failure: Option<Failure>)
      requires Valid() && i < |slots| && phases[i].Preparing?
      modifies this
      ensures failure == Prepared(cfg, old(CellOf(Now(), i)), p, old(issued)).failure
      ensures var q := Worked(cfg, old(Now()), i, p);
              Now() == if failure.Some? then Vacated(q, i) else q
    {
      ghost var before := Now();
      if cfg.reuse {
        failure := PrepareReuseSlot(i, p, issued);
      } else {
        failure := PrepareLegacySlot(i, p, issued);
      }
      issued := issued + 2;
      lapsed := Accounted(cfg, lapsed, i, before.slots[i], slots[i], p.expired);
      if failure.Some? {
        slots := slots[i := slots[i].(busy := false)];
        permits := permits + 1;
        phases := phases[i := Phase.Free];
      }
    }

    method Acquire(i: nat, p: Prep) returns (r: Result<Session, Failure>)
      requires Valid() && i < |slots| && phases[i] == Preparing(true)
      modifies this
      ensures Valid() && Now() == Finished(cfg, old(Now()), i, p, Found)
      ensures r.Ok? <==> Prepared(cfg, old(CellOf(Now(), i)), p, old(issued)).failure == None
      ensures r.Ok? ==> r.value in checkout && checkout[r.value] == i && slots[i].session == Some(r.value)
    {
      ghost var before := Now();
      FinishedKeepsInv(cfg, |slots|, before, i, p, Found);
      assert SlotOk(cfg, before, i);
      PreparedIsSane(cfg, CellOf(before, i), p, issued);
      var failure := PrepareChosen(i, p);
      if failure.Some? {
        return Err(failure.value);
      }
      var session := slots[i].session.value;
      checkout := checkout[session := i];
      phases := phases[i := Guest];
      r := Ok(session);
    }

    /** Lends what the store holds for the slot, with the slot's own address attached. */
    method AcquireFamiliaBundle(i: nat, p: Prep, load: Load) returns (r: Result<(Option<Bundle>, Option<Url>), Failure>)
      requires Valid() && i < |slots| && phases[i] == Preparing(false)
      modifies this
      ensures Valid() && Now() == Finished(cfg, old(Now()), i, p, load)
      ensures r.Ok? <==> Prepared(cfg, old(CellOf(Now(), i)), p, old(issued)).failure == None && load != Raises
      ensures r.Ok? ==> r.value == (Loaded(CellOf(Now(), i), load), slots[i].proxyUrl)
    {
      ghost var before := Now();
      FinishedKeepsInv(cfg, |slots|, before, i, p, load);
      assert SlotOk(cfg, before, i);
      PreparedIsSane(cfg, CellOf(before, i), p, issued);
      var failure := PrepareChosen(i, p);
      if failure.Some? {
        return Err(failure.value);
      }
      if load == Raises {
        var ignored := ReturnSlot(i, Return(Some(true), None, true, p.mint, p.now));
        return Err(Ordinary);
      }
      var bundle := if load == Found && i in store then Some(store[i]) else None;
      phases := phases[i := Familia];
      r := Ok((bundle, slots[i].proxyUrl));
    }

    /** Gives a slot back, replacing its address first if asked to; in any case it ends idle with its permit returned. */
    method ReturnSlot(i: nat, how: Return) returns (failure: Option<Failure>)
      requires i < |slots| && i < |phases|
      modifies this
      ensures Now() == SlotReturned(cfg, old(Now()), i, how)
      ensures failure == Returned(cfg, old(CellOf(Now(), i)), how, old(issued)).failure
      ensures |slots| == |old(slots)| && !slots[i].busy && permits == old(permits) + 1 && checkout == old(checkout)
      ensures Rejects(how) && |old(slots)| == |old(phases)| ==>
        slots[i].session == Some(old(issued)) || slots[i].session == old(slots)[i].session
      ensures Rejects(how) && |old(slots)| == |old(phases)|
              && old(slots)[i].session != Some(old(issued)) && slots[i].session == old(slots)[i].session ==>
        ToReplace(slots[i])
    {
      ghost var before := Now();
      if Rejects(how) && |slots| == |phases| {
        ReleaseRejects(cfg, before, i, how);
      }
      failure := DisposeSlot(i, how);
      CellOfPut(before, i, Disposed(cfg, CellOf(before, i), how, before.issued).cell);
      slots := slots[i := slots[i].(minted := false, busy := false)];
      permits := permits + 1;
      issued := issued + 2;
      lapsed := Accounted(cfg, lapsed, i, before.slots[i], slots[i], false);
      phases := phases[i := Phase.Free];
    }

    method DisposeSlot(i: nat, how: Return) returns (failure: Option<Failure>)
      requires i < |slots|
      modifies this
      ensures Now() == Put(old(Now()), i, Disposed(cfg, old(CellOf(Now(), i)), how, old(issued)).cell)
      ensures failure == Disposed(cfg, old(CellOf(Now(), i)), how, old(issued)).failure
    {
      ghost var before, c := Now(), CellOf(Now(), i);
      PutSame(before, i);
      var d := ReleaseDisposition(how);
      if d == None {
        return Some(Ordinary);
      }
      slots := slots[i := slots[i].(disposition := d.value)];
      ghost var c1 := c.(slot := c.slot.(disposition := d.value));
      assert Now() == Put(before, i, c1);
      CellOfPut(before, i, c1);
      failure := None;
      if d.value == Replace && how.remint && !(cfg.reuse && slots[i].minted) {
        failure := RemintSlot(i, how);
        PutPut(before, i, c1, Remint(cfg, c1, how, before.issued).cell);
      }
    }

    method RemintSlot(i: nat, how: Return) returns (failure: Option<Failure>)
      requires i < |slots|
      modifies this
      ensures Now() == Put(old(Now()), i, Remint(cfg, old(CellOf(Now(), i)), how, old(issued)).cell)
      ensures failure == Remint(cfg, old(CellOf(Now(), i)), how, old(issued)).failure
    {
      ghost var before, c := Now(), CellOf(Now(), i);
      if cfg.reuse {
        failure := MintOnceForAcquisition(i, how.mint, how.now, issued);
        CellOfPut(before, i, MintOnce(cfg, c, how.mint, how.now, before.issued).cell);
      } else {
        failure := MintSlot(i, None, how.mint, issued);
        CellOfPut(before, i, Mint(cfg, c, None, how.mint, before.issued).cell);
      }
      if failure == Some(Ordinary) {
        if slots[i].disposition != Cooldown {
          slots := slots[i := EnterCooldown(cfg, slots[i], how.now)];
        }
        failure := None;
      }
    }

    /** A session that is not checked out is ignored. */
    method Release(session: Session, how: Return) returns (failure: Option<Failure>)
      requires Valid()
      modifies this
      ensures Valid()
      ensures session !in old(checkout) ==> Now() == old(Now()) && failure == None
      ensures session in old(checkout) ==>
                Now() == Step(cfg, Popped(old(Now()), session), GiveBack(old(checkout)[session], how))
      ensures session in old(checkout) ==>
                session !in checkout && permits == old(permits) + 1 && ReleasedAs(how, session, old(checkout)[session], Now(), failure)
    {
      if session !in checkout {
        return None;
      }
      assert CheckoutOk(Now(), session);
      PoppedKeepsInv(cfg, |slots|, Now(), session);
      var i := checkout[session];
      checkout := checkout - {session};
      phases := phases[i := Returning];
      SlotReturnedKeepsInv(cfg, |slots|, Now(), i, how);
      GuestReleasedAs(cfg, |slots|, old(Now()), session, how);
      failure := ReturnSlot(i, how);
    }
  }

  // ----- rewriting a cell

  lemma CellOfPut(p: Pool, i: nat, c: Cell)
    requires i < |p.slots|
    ensures CellOf(Put(p, i, c), i) == c
  {
  }

  lemma PutSame(p: Pool, i: nat)
    requires i < |p.slots|
    ensures Put(p, i, CellOf(p, i)) == p
  {
    assert p.slots[i := p.slots[i]] == p.slots;
  }

  lemma PutPut(p: Pool, i: nat, c: Cell, d: Cell)
    requires i < |p.slots|
    ensures Put(Put(p, i, c), i, d) == Put(p, i, d)
  {
    assert p.slots[i := c.slot][i := d.slot] == p.slots[i := d.slot];
    assert Put(Put(p, i, c), i, d).store == Put(p, i, d).store;
  }
}
