/** What one preparation or return of a slot guarantees, whatever the outside world answers. */
module SlotSafety {
  import opened Base
  import opened SlotLifecycle

  /** The slot can be handed out as it is. */
  predicate Ready(cfg: Config, s: Slot) {
    s.disposition == Healthy && s.session.Some? && (cfg.reuse ==> s.savedAt.Some?)
  }

  /** A bundle lent from the store belongs to the address the slot egresses by. */
  predicate Agree(cfg: Config, c: Cell) {
    Ready(cfg, c.slot) && c.entry.Some? ==> c.entry.value.token == c.slot.token
  }

  predicate Tidy(cfg: Config, s: Slot) {
    && s.proxyUrl == UrlOf(cfg, s.token)
    && (s.disposition != Cooldown ==> s.recovery == None && s.nextProbe == 0.0)
    && (s.recovery.Some? ==> s.recovery.value in {Validate, Replace})
    && (s.savedAt.Some? ==> s.session.Some?)
  }

  /** The store was written and the slot was not. */
  predicate Unclaimed(cfg: Config, m: MintScript) {
    match m.commit
    case SaveRaised(kept, cancelled) => kept
    case ReadBackNone(kept, cancelled) => cfg.reuse && kept
    case _ => false
  }

  /** The same, and cancelling the close of the candidate hid the error from the cooldown. */
  predicate Torn(cfg: Config, m: MintScript) {
    Unclaimed(cfg, m) && m.commit.cancelled
  }

  // ----- minting

  lemma {:induction false} BuildCounts(tries: seq<Try>, k: nat, attempts: nat)
    requires k < attempts
    ensures var b := Build(tries, k, attempts);
            && b.failed <= b.started <= attempts - k
            && (b.failure == None <==> b.started == b.failed + 1)
            && (b.failure.Some? <==> b.started == b.failed)
    decreases attempts - k
  {
    var t := TryAt(tries, k);
    if !t.lateAtStart && t.trouble == Some(Transient) && !t.lateAtEnd && k + 1 < attempts && !t.napCancelled {
      BuildCounts(tries, k + 1, attempts);
    }
  }

  predicate Builds(cfg: Config, most: Option<int>, m: MintScript) {
    Build(m.tries, 0, Attempts(cfg, most)).failure == None
  }

  lemma FailedMintKeepsSlot(cfg: Config, c: Cell, most: Option<int>, m: MintScript, id: Session)
    requires c.slot.session != Some(id)
    ensures var o := Mint(cfg, c, most, m, id);
            && (o.failure == None ==> Ready(cfg, o.cell.slot) && o.cell.entry == Some(NewBundle(cfg, m)))
            && (o.failure.Some? ==> (o.cell.slot == c.slot <==> !(cfg.reuse && Builds(cfg, most, m) && m.commit.ReadBackRaised?)))
  {
    assert Mint(cfg, c, most, m, id).cell.slot == c.slot || Mint(cfg, c, most, m, id).cell.slot.session == Some(id);
  }

  lemma BackoffIsBounded(cfg: Config, s: Slot, now: real)
    requires cfg.pause >= 0.0
    ensures var s' := EnterCooldown(cfg, s, now);
            now + cfg.pause <= s'.nextProbe <= now + 32.0 * cfg.pause
  {
    assert Pow2(0) == 1 && Pow2(1) == 2 && Pow2(2) == 4 && Pow2(3) == 8 && Pow2(4) == 16 && Pow2(5) == 32;
    var b := Backoff(s.failures + 1);
    assert b == 1 || b == 2 || b == 4 || b == 8 || b == 16 || b == 32;
    assert cfg.pause * b as real >= cfg.pause && cfg.pause * b as real <= 32.0 * cfg.pause;
  }

  /** A cooldown lasts until its probe time, and then restores whether the slot was to be validated or replaced. */
  lemma CooldownKeepsIntent(cfg: Config, s: Slot, now: real, later: real)
    ensures var s' := EnterCooldown(cfg, s, now);
            Expired(s', later).disposition ==
            if later < s'.nextProbe then Cooldown else if s.disposition == Validate then Validate else Replace
    ensures now <= EnterCooldown(cfg, s, now).nextProbe
  {
    var base := if cfg.pause < 0.0 then 0.0 else cfg.pause;
    assert base * Backoff(s.failures + 1) as real >= 0.0;
  }

  // ----- preparing

  /** A session the slot did not have before is one of the two candidates of this preparation. */
  predicate Follows(s: Slot, t: Slot, id: Session) {
    && t.busy == s.busy
    && (t.session == s.session || t.session == Some(id) || t.session == Some(id + 1))
  }

  /** What is left of a slot after minting or revalidating: ready if that went well, tidy in any case. */
  predicate Sane(cfg: Config, c: Cell, o: Outcome, id: Session) {
    && (o.failure == None ==> Ready(cfg, o.cell.slot))
    && Tidy(cfg, o.cell.slot)
    && Follows(c.slot, o.cell.slot, id)
  }

  lemma MintIsSane(cfg: Config, c: Cell, most: Option<int>, m: MintScript, id: Session)
    requires Tidy(cfg, c.slot) && c.slot.disposition != Cooldown
    ensures Sane(cfg, c, Mint(cfg, c, most, m, id), id)
    ensures Mint(cfg, c, most, m, id).cell.slot.disposition in {c.slot.disposition, Healthy}
    ensures Mint(cfg, c, most, m, id).cell.slot.session in {c.slot.session, Some(id)}
  {
  }

  lemma MintOnceIsSane(cfg: Config, c: Cell, m: MintScript, now: real, id: Session)
    requires Tidy(cfg, c.slot) && c.slot.disposition != Cooldown
    ensures Sane(cfg, c, MintOnce(cfg, c, m, now, id), id)
    ensures MintOnce(cfg, c, m, now, id).cell.slot.session in {c.slot.session, Some(id)}
  {
    MintIsSane(cfg, c, Some(1), m, id);
  }

  lemma RevalidateIsSane(cfg: Config, c: Cell, bundle: Bundle, v: ValidateScript, id: Session)
    requires Tidy(cfg, c.slot) && c.slot.disposition == Validate
    ensures var (c', verdict) := Revalidate(cfg, c, bundle, v, id);
            && Tidy(cfg, c'.slot) && c'.slot.busy == c.slot.busy
            && (if verdict == Confirmed then Ready(cfg, c'.slot) && c'.slot.session == Some(id) else c'.slot == c.slot)
  {
  }

  lemma CooldownIsTidy(cfg: Config, s: Slot, now: real)
    requires Tidy(cfg, s)
    ensures Tidy(cfg, EnterCooldown(cfg, s, now)) && EnterCooldown(cfg, s, now).session == s.session
  {
  }

  lemma AfterVerdictIsSane(cfg: Config, c: Cell, verdict: Verdict, p: Prep, id: Session)
    requires Tidy(cfg, c.slot) && c.slot.disposition == if verdict == Confirmed then Healthy else Validate
    requires verdict == Confirmed ==> Ready(cfg, c.slot)
    ensures Sane(cfg, c, AfterVerdict(cfg, c, verdict, p, id), id)
    ensures AfterVerdict(cfg, c, verdict, p, id).cell.slot.session in {c.slot.session, Some(id)}
  {
    match verdict
    case Unclear => CooldownIsTidy(cfg, c.slot, p.now);
    case WasRejected => MintOnceIsSane(cfg, c, p.mint, p.now, id);
    case _ =>
  }

  lemma RevalidateOrMintIsSane(cfg: Config, c: Cell, bundle: Bundle, p: Prep, id: Session)
    requires Tidy(cfg, c.slot) && c.slot.disposition != Cooldown
    ensures Sane(cfg, c, RevalidateOrMint(cfg, c, bundle, p, id), id)
  {
    var quarantined := c.(slot := c.slot.(disposition := Validate));
    RevalidateIsSane(cfg, quarantined, bundle, p.check, id);
    var (c', verdict) := Revalidate(cfg, quarantined, bundle, p.check, id);
    AfterVerdictIsSane(cfg, c', verdict, p, id + 1);
  }

  lemma LegacyIsSane(cfg: Config, c: Cell, p: Prep, id: Session)
    requires Tidy(cfg, c.slot) && c.slot.disposition != Cooldown && !cfg.reuse
    ensures Sane(cfg, c, PrepareLegacy(cfg, c, p, id), id)
  {
    var c0 := if c.slot.disposition == Validate then c.(slot := c.slot.(disposition := Replace)) else c;
    MintIsSane(cfg, c0, None, p.mint, id);
  }

  lemma ValidateStoredIsSane(cfg: Config, c: Cell, p: Prep, id: Session)
    requires Tidy(cfg, c.slot) && c.slot.disposition != Cooldown
    ensures Sane(cfg, c, NoteMinted(ValidateStored(cfg, c, p, id)), id)
  {
    if p.load != Raises && Matches(c.slot, Loaded(c, p.load)) {
      RevalidateOrMintIsSane(cfg, c, c.entry.value, p, id);
    }
  }

  lemma InitializeIsSane(cfg: Config, c: Cell, p: Prep, id: Session)
    requires Tidy(cfg, c.slot) && c.slot.disposition != Cooldown
    ensures Sane(cfg, c, NoteMinted(Initialize(cfg, c, p, id)), id)
  {
    var bundle := Loaded(c, p.load);
    if p.load == Raises {
    } else if bundle == None || (cfg.proxy && NoToken(bundle.value.token)) || p.bundleStale {
      MintIsSane(cfg, c, Some(1), p.mint, id);
    } else {
      RevalidateOrMintIsSane(cfg, c, bundle.value, p, id);
    }
  }

  lemma ReuseIsSane(cfg: Config, c: Cell, p: Prep, id: Session)
    requires Tidy(cfg, c.slot) && c.slot.disposition != Cooldown
    ensures Sane(cfg, c, PrepareReuse(cfg, c, p, id), id)
  {
    if c.slot.disposition == Validate {
      ValidateStoredIsSane(cfg, c, p, id);
    } else if c.slot.disposition == Replace {
      MintOnceIsSane(cfg, c, p.mint, p.now, id);
    } else if c.slot.session == None || c.slot.savedAt == None {
      InitializeIsSane(cfg, c, p, id);
    } else if p.expired || c.slot.aged {
      MintOnceIsSane(cfg, c, p.mint, p.now, id);
    } else if !p.recent {
      ValidateStoredIsSane(cfg, c, p, id);
    }
  }

  lemma PreparedIsSane(cfg: Config, c: Cell, p: Prep, id: Session)
    requires Tidy(cfg, c.slot) && c.slot.disposition != Cooldown
    ensures Sane(cfg, c, Prepared(cfg, c, p, id), id)
  {
    if cfg.reuse {
      ReuseIsSane(cfg, c, p, id);
    } else {
      LegacyIsSane(cfg, c, p, id);
    }
  }

  /** The slot uses an address it already had, or the one of the stored bundle. */
  predicate NoNewAddress(c: Cell, t: Slot) {
    t.token == c.slot.token || (c.entry.Some? && t.token == c.entry.value.token)
  }

  lemma RevalidatedOrMinted(cfg: Config, c: Cell, bundle: Bundle, p: Prep, id: Session)
    requires c.entry == Some(bundle)
    ensures var o := RevalidateOrMint(cfg, c, bundle, p, id);
            o.failure == None && !o.minted ==> NoNewAddress(c, o.cell.slot)
  {
  }

  /** With revalidation a borrow that bought no new address is marked so. */
  lemma UnmintedBuysNothing(cfg: Config, c: Cell, p: Prep, id: Session)
    requires cfg.reuse && c.slot.disposition != Cooldown && !c.slot.minted
    requires Prepared(cfg, c, p, id).failure == None && !Prepared(cfg, c, p, id).cell.slot.minted
    ensures NoNewAddress(c, Prepared(cfg, c, p, id).cell.slot)
  {
    if c.entry.Some? {
      RevalidatedOrMinted(cfg, c, c.entry.value, p, id);
    }
  }

  /** One that did cannot buy a second one by being given back, however it is given back. */
  lemma MintedBuysNoMore(cfg: Config, c: Cell, r: Return, id: Session)
    requires cfg.reuse && c.slot.minted
    ensures var c' := Returned(cfg, c, r, id).cell;
            && c'.entry == c.entry && c'.slot.session == c.slot.session && c'.slot.token == c.slot.token
            && c'.slot.disposition == (if ReleaseDisposition(r) == None then c.slot.disposition else ReleaseDisposition(r).value)
  {
  }

  /** Too old or expired: a ready slot that is not lent as it is. */
  predicate Stale(cfg: Config, s: Slot, p: Prep) {
    s.aged || (cfg.reuse && p.expired)
  }

  /** The one way a preparation leaves a slot ready whose stored bundle is another's. */
  predicate TearsApart(cfg: Config, c: Cell, p: Prep) {
    && Ready(cfg, c.slot) && Stale(cfg, c.slot, p)
    && Builds(cfg, if cfg.reuse then Some(1) else None, p.mint)
    && Torn(cfg, p.mint)
    && NewBundle(cfg, p.mint).token != c.slot.token
  }

  lemma MintAgreement(cfg: Config, c: Cell, most: Option<int>, m: MintScript, id: Session)
    requires Agree(cfg, c)
    ensures !Agree(cfg, Mint(cfg, c, most, m, id).cell) <==>
            Ready(cfg, c.slot) && Builds(cfg, most, m) && Unclaimed(cfg, m) && NewBundle(cfg, m).token != c.slot.token
  {
  }

  lemma MintOnceAgreement(cfg: Config, c: Cell, m: MintScript, now: real, id: Session)
    requires Agree(cfg, c)
    ensures !Agree(cfg, MintOnce(cfg, c, m, now, id).cell) <==>
            Ready(cfg, c.slot) && Builds(cfg, Some(1), m) && Torn(cfg, m) && NewBundle(cfg, m).token != c.slot.token
  {
    MintAgreement(cfg, c, Some(1), m, id);
  }

  lemma RevalidateAgreement(cfg: Config, c: Cell, bundle: Bundle, v: ValidateScript, id: Session)
    requires c.slot.disposition == Validate
    ensures var (c', verdict) := Revalidate(cfg, c, bundle, v, id);
            Agree(cfg, c') && (verdict != Confirmed ==> c'.slot == c.slot)
  {
  }

  lemma RevalidateOrMintAgreement(cfg: Config, c: Cell, bundle: Bundle, p: Prep, id: Session)
    ensures Agree(cfg, RevalidateOrMint(cfg, c, bundle, p, id).cell)
  {
    var quarantined := c.(slot := c.slot.(disposition := Validate));
    RevalidateAgreement(cfg, quarantined, bundle, p.check, id);
    var (c', verdict) := Revalidate(cfg, quarantined, bundle, p.check, id);
    if verdict == WasRejected {
      MintOnceAgreement(cfg, c', p.mint, p.now, id + 1);
    }
  }

  lemma ValidateStoredAgreement(cfg: Config, c: Cell, p: Prep, id: Session)
    requires Agree(cfg, c)
    ensures Agree(cfg, NoteMinted(ValidateStored(cfg, c, p, id)).cell)
  {
    if p.load != Raises && Matches(c.slot, Loaded(c, p.load)) {
      RevalidateOrMintAgreement(cfg, c, c.entry.value, p, id);
    }
  }

  lemma InitializeAgreement(cfg: Config, c: Cell, p: Prep, id: Session)
    requires !Ready(cfg, c.slot)
    ensures Agree(cfg, NoteMinted(Initialize(cfg, c, p, id)).cell)
  {
    var bundle := Loaded(c, p.load);
    if p.load == Raises {
    } else if bundle == None || (cfg.proxy && NoToken(bundle.value.token)) || p.bundleStale {
      MintAgreement(cfg, c, Some(1), p.mint, id);
    } else {
      RevalidateOrMintAgreement(cfg, c, bundle.value, p, id);
    }
  }

  lemma ReuseAgreement(cfg: Config, c: Cell, p: Prep, id: Session)
    requires Agree(cfg, c) && c.slot.disposition != Cooldown && cfg.reuse
    ensures !Agree(cfg, PrepareReuse(cfg, c, p, id).cell) <==> TearsApart(cfg, c, p)
  {
    if c.slot.disposition == Validate {
      ValidateStoredAgreement(cfg, c, p, id);
    } else if c.slot.disposition == Replace {
      MintOnceAgreement(cfg, c, p.mint, p.now, id);
    } else if c.slot.session == None || c.slot.savedAt == None {
      InitializeAgreement(cfg, c, p, id);
    } else if p.expired || c.slot.aged {
      MintOnceAgreement(cfg, c, p.mint, p.now, id);
    } else if !p.recent {
      ValidateStoredAgreement(cfg, c, p, id);
    }
  }

  lemma LegacyAgreement(cfg: Config, c: Cell, p: Prep, id: Session)
    requires Agree(cfg, c) && c.slot.disposition != Cooldown && !cfg.reuse
    ensures !Agree(cfg, PrepareLegacy(cfg, c, p, id).cell) <==> TearsApart(cfg, c, p)
  {
    var c0 := if c.slot.disposition == Validate then c.(slot := c.slot.(disposition := Replace)) else c;
    MintAgreement(cfg, c0, None, p.mint, id);
  }

  lemma AgreementIsLostIff(cfg: Config, c: Cell, p: Prep, id: Session)
    requires Agree(cfg, c) && c.slot.disposition != Cooldown
    ensures !Agree(cfg, Prepared(cfg, c, p, id).cell) <==> TearsApart(cfg, c, p)
  {
    if cfg.reuse {
      ReuseAgreement(cfg, c, p, id);
    } else {
      LegacyAgreement(cfg, c, p, id);
    }
  }

  /** A ready slot that is too old or expired is lent only with a new address and the bundle minted for it. */
  lemma StaleIsReplaced(cfg: Config, c: Cell, p: Prep, id: Session)
    requires Ready(cfg, c.slot) && Stale(cfg, c.slot, p)
    ensures var o := Prepared(cfg, c, p, id);
            if o.failure == None then o.cell.entry == Some(NewBundle(cfg, p.mint)) && o.cell.slot.token == NewBundle(cfg, p.mint).token
            else Ready(cfg, o.cell.slot) ==> o.cell.slot == c.slot
  {
  }

  /** A slot separated from its bundle is stale. `lapsed`: its cookies were found expired before, and so are they now.
      Then it is not lent as it is, and stays stale until it is whole again. */
  lemma StaleIsNeverLent(cfg: Config, c: Cell, p: Prep, id: Session, lapsed: bool)
    requires c.slot.disposition != Cooldown
    requires Agree(cfg, c) || c.slot.aged || (cfg.reuse && lapsed)
    requires cfg.reuse && lapsed && Ready(cfg, c.slot) ==> p.expired
    ensures var o := Prepared(cfg, c, p, id);
            && (o.failure == None ==> Agree(cfg, o.cell))
            && (Agree(cfg, o.cell) || (o.cell.slot == c.slot && Ready(cfg, c.slot) && Stale(cfg, c.slot, p)))
  {
    if Agree(cfg, c) {
      AgreementIsLostIff(cfg, c, p, id);
    }
    if Ready(cfg, c.slot) && Stale(cfg, c.slot, p) {
      StaleIsReplaced(cfg, c, p, id);
    }
  }

  /** When exactly a borrow lends a slot with another bundle than its own: the slot is ready, already differs from its
      bundle, and is judged neither too old nor expired, nor due for validation. */
  lemma MismatchIsLentIff(cfg: Config, c: Cell, p: Prep, id: Session)
    requires c.slot.disposition != Cooldown
    ensures var o := Prepared(cfg, c, p, id);
            o.failure == None && !Agree(cfg, o.cell)
            <==> Ready(cfg, c.slot) && !Agree(cfg, c) && !Stale(cfg, c.slot, p) && (cfg.reuse ==> p.recent)
  {
    if Agree(cfg, c) {
      AgreementIsLostIff(cfg, c, p, id);
    } else if Stale(cfg, c.slot, p) {
      StaleIsReplaced(cfg, c, p, id);
    }
  }

  /** Why a torn commit matters: with revalidation, if the wall clock is then set back before the expiry that made the
      slot mint, the next borrow lends the mismatched bundle. */
  lemma TornBundleIsLent(cfg: Config, c: Cell, p: Prep, later: Prep, id: Session)
    requires cfg.reuse && Ready(cfg, c.slot) && !c.slot.aged && Agree(cfg, c) && TearsApart(cfg, c, p)
    requires !later.expired && later.recent
    ensures var o := Prepared(cfg, c, p, id);
            && p.expired && o.failure == Some(Cancelled)
            && Prepared(cfg, o.cell, later, id + 2).failure == None
            && !Agree(cfg, Prepared(cfg, o.cell, later, id + 2).cell)
  {
    AgreementIsLostIff(cfg, c, p, id);
    assert Prepared(cfg, c, p, id) == MintOnce(cfg, c, p.mint, p.now, id);
  }

  lemma RemintIsSane(cfg: Config, c: Cell, r: Return, id: Session)
    requires Tidy(cfg, c.slot) && c.slot.disposition == Replace
    ensures var s := Remint(cfg, c, r, id).cell.slot;
            Tidy(cfg, s) && (s.session == c.slot.session || s.session == Some(id))
  {
    MintIsSane(cfg, c, None, r.mint, id);
    MintIsSane(cfg, c, Some(1), r.mint, id);
  }

  lemma ReturnedIsSane(cfg: Config, c: Cell, r: Return, id: Session)
    requires Ready(cfg, c.slot) && Tidy(cfg, c.slot)
    ensures var c' := Returned(cfg, c, r, id).cell;
            && Tidy(cfg, c'.slot) && !c'.slot.busy && !c'.slot.minted
            && (c'.slot.session == c.slot.session || c'.slot.session == Some(id))
  {
    var d := ReleaseDisposition(r);
    if d == Some(Replace) {
      RemintIsSane(cfg, c.(slot := c.slot.(disposition := Replace)), r, id);
    }
  }

  lemma ReturnedAgrees(cfg: Config, c: Cell, r: Return, id: Session)
    requires Ready(cfg, c.slot) && Agree(cfg, c)
    ensures Agree(cfg, Returned(cfg, c, r, id).cell)
  {
  }

  lemma ExpiredKeeps(cfg: Config, c: Cell, now: real)
    requires Tidy(cfg, c.slot) && Agree(cfg, c)
    ensures var s' := Expired(c.slot, now);
            Tidy(cfg, s') && Agree(cfg, c.(slot := s')) && s'.session == c.slot.session && s'.busy == c.slot.busy
  {
  }

  // ----- a slot nobody can use again

  /** Waiting for a validation that the store does not back. */
  predicate Stuck(c: Cell) {
    c.slot.disposition == Validate && !Matches(c.slot, c.entry)
  }

  /** Stuck, or stuck as soon as its cooldown is over. */
  predicate Doomed(c: Cell) {
    && (c.slot.disposition == Validate || (c.slot.disposition == Cooldown && c.slot.recovery == Some(Validate)))
    && !Matches(c.slot, c.entry)
  }

  lemma StuckRefusesEveryBorrow(cfg: Config, c: Cell, p: Prep, id: Session)
    requires cfg.reuse && Stuck(c)
    ensures Prepared(cfg, c, p, id) == Outcome(c, Some(Ordinary), false)
  {
  }

  /** The store follows the slot. */
  predicate Synced(c: Cell) {
    c.slot.savedAt.Some? ==> Matches(c.slot, c.entry)
  }

  /** Nobody else writes the store, and a bundle is readable once saved and absent when saving failed. */
  predicate CleanMint(m: MintScript) {
    m.commit == Saved || (m.commit.SaveRaised? && !m.commit.kept)
  }

  predicate CleanPrep(p: Prep) {
    CleanMint(p.mint) && p.check.meanwhile == None
  }

  /** Without revalidation no slot records when its bundle was saved. */
  predicate FollowsStore(cfg: Config, c: Cell) {
    Synced(c) && (!cfg.reuse ==> c.slot.savedAt == None)
  }

  lemma CleanMintFollows(cfg: Config, c: Cell, most: Option<int>, m: MintScript, id: Session)
    requires FollowsStore(cfg, c) && CleanMint(m)
    ensures FollowsStore(cfg, Mint(cfg, c, most, m, id).cell)
  {
  }

  lemma CleanVerdictFollows(cfg: Config, c: Cell, bundle: Bundle, v: ValidateScript, id: Session)
    requires FollowsStore(cfg, c) && v.meanwhile == None && cfg.reuse
    ensures FollowsStore(cfg, Revalidate(cfg, c, bundle, v, id).0)
  {
  }

  lemma CleanMintOnceFollows(cfg: Config, c: Cell, m: MintScript, now: real, id: Session)
    requires FollowsStore(cfg, c) && CleanMint(m)
    ensures FollowsStore(cfg, MintOnce(cfg, c, m, now, id).cell)
  {
    CleanMintFollows(cfg, c, Some(1), m, id);
  }

  lemma CleanRevalidationFollows(cfg: Config, c: Cell, bundle: Bundle, p: Prep, id: Session)
    requires FollowsStore(cfg, c) && CleanPrep(p) && cfg.reuse
    ensures FollowsStore(cfg, RevalidateOrMint(cfg, c, bundle, p, id).cell)
  {
    var quarantined := c.(slot := c.slot.(disposition := Validate));
    var (c', verdict) := Revalidate(cfg, quarantined, bundle, p.check, id);
    CleanVerdictFollows(cfg, quarantined, bundle, p.check, id);
    if verdict == WasRejected {
      CleanMintOnceFollows(cfg, c', p.mint, p.now, id + 1);
    }
  }

  lemma CleanValidationFollows(cfg: Config, c: Cell, p: Prep, id: Session)
    requires FollowsStore(cfg, c) && CleanPrep(p) && cfg.reuse
    ensures FollowsStore(cfg, NoteMinted(ValidateStored(cfg, c, p, id)).cell)
  {
    if p.load != Raises && Matches(c.slot, Loaded(c, p.load)) {
      CleanRevalidationFollows(cfg, c, c.entry.value, p, id);
    }
  }

  lemma CleanInitializationFollows(cfg: Config, c: Cell, p: Prep, id: Session)
    requires FollowsStore(cfg, c) && CleanPrep(p) && cfg.reuse
    ensures FollowsStore(cfg, NoteMinted(Initialize(cfg, c, p, id)).cell)
  {
    var bundle := Loaded(c, p.load);
    if p.load == Raises {
    } else if bundle == None || (cfg.proxy && NoToken(bundle.value.token)) || p.bundleStale {
      CleanMintFollows(cfg, c, Some(1), p.mint, id);
    } else {
      CleanRevalidationFollows(cfg, c, bundle.value, p, id);
    }
  }

  lemma CleanReuseFollows(cfg: Config, c: Cell, p: Prep, id: Session)
    requires FollowsStore(cfg, c) && CleanPrep(p) && cfg.reuse
    ensures FollowsStore(cfg, PrepareReuse(cfg, c, p, id).cell)
  {
    if c.slot.disposition == Replace {
      CleanMintOnceFollows(cfg, c, p.mint, p.now, id);
    } else if c.slot.disposition != Validate && (c.slot.session == None || c.slot.savedAt == None) {
      CleanInitializationFollows(cfg, c, p, id);
    } else if c.slot.disposition != Validate && (p.expired || c.slot.aged) {
      CleanMintOnceFollows(cfg, c, p.mint, p.now, id);
    } else {
      CleanValidationFollows(cfg, c, p, id);
    }
  }

  lemma CleanPreparationFollows(cfg: Config, c: Cell, p: Prep, id: Session)
    requires FollowsStore(cfg, c) && CleanPrep(p)
    ensures FollowsStore(cfg, Prepared(cfg, c, p, id).cell)
  {
    if cfg.reuse {
      CleanReuseFollows(cfg, c, p, id);
    } else {
      CleanMintFollows(cfg, c, None, p.mint, id);
      CleanMintFollows(cfg, c.(slot := c.slot.(disposition := Replace)), None, p.mint, id);
    }
  }

  lemma CleanReturnFollows(cfg: Config, c: Cell, r: Return, id: Session)
    requires FollowsStore(cfg, c) && CleanMint(r.mint)
    ensures FollowsStore(cfg, Returned(cfg, c, r, id).cell)
  {
  }

  /** A slot that never had a bundle of its own validates the one found in the store. */
  predicate StartupValidation(cfg: Config, c: Cell, p: Prep) {
    && cfg.reuse && c.slot.disposition == Healthy && (c.slot.session == None || c.slot.savedAt == None)
    && p.load == Found && c.entry.Some? && !(cfg.proxy && NoToken(c.entry.value.token)) && !p.bundleStale
  }

  lemma FailedValidationSticks(cfg: Config, c: Cell, bundle: Bundle, p: Prep, id: Session)
    requires CleanPrep(p) && FollowsStore(cfg, c) && cfg.reuse
    ensures var o := RevalidateOrMint(cfg, c, bundle, p, id);
            Doomed(o.cell) <==> o.failure.Some? && c.slot.savedAt == None
  {
    var quarantined := c.(slot := c.slot.(disposition := Validate));
    var (c', verdict) := Revalidate(cfg, quarantined, bundle, p.check, id);
    assert FollowsStore(cfg, c');
    if verdict == WasRejected {
      assert c' == quarantined;
    }
  }

  lemma SticksIff(cfg: Config, c: Cell, p: Prep, id: Session)
    requires cfg.reuse && CleanPrep(p) && FollowsStore(cfg, c)
    requires c.slot.disposition != Cooldown && !Doomed(c)
    requires Tidy(cfg, c.slot)
    ensures var o := Prepared(cfg, c, p, id);
            Doomed(o.cell) <==> StartupValidation(cfg, c, p) && o.failure.Some?
  {
    var bundle := Loaded(c, p.load);
    if bundle.Some? {
      FailedValidationSticks(cfg, c, bundle.value, p, id);
    }
  }

  lemma ReturnNeverSticks(cfg: Config, c: Cell, r: Return, id: Session)
    requires cfg.reuse && CleanMint(r.mint) && FollowsStore(cfg, c) && Ready(cfg, c.slot)
    ensures !Doomed(Returned(cfg, c, r, id).cell)
  {
  }

  /** A caller's own cooldown imposes no wait: the probe time stays at zero, and the slot is replaced at the next borrow. */
  lemma ReleasedAsCooldownDoesNotWait(cfg: Config, c: Cell, r: Return, id: Session, now: real)
    requires Ready(cfg, c.slot) && Tidy(cfg, c.slot) && now >= 0.0
    requires r.disposition == Some(Cooldown) && r.healthy == None
    ensures var s := Returned(cfg, c, r, id).cell.slot;
            s.disposition == Cooldown && Expired(s, now).disposition == Replace
  {
  }
}
