/** When a borrow of a chosen slot succeeds, in terms of the slot and of what the outside world answers. */
module SlotBorrowing {
  import opened Base
  import opened SlotLifecycle
  import opened SlotSafety

  // ----- minting

  /** One to three sticky addresses, whatever is configured; a borrow that waits for it may ask for fewer. */
  lemma AttemptsAre(cfg: Config, most: Option<int>)
    ensures Attempts(cfg, None) == if cfg.retries <= 1 then 1 else if cfg.retries == 2 then 2 else 3
    ensures Attempts(cfg, Some(1)) == 1
    ensures most.Some? ==> Attempts(cfg, most) <= (if most.value < 1 then 1 else most.value)
    ensures most.Some? && most.value >= 3 ==> Attempts(cfg, most) == Attempts(cfg, None)
  {
  }

  /** Attempt `k` is the first without trouble, and nothing before it forbade going on. */
  predicate GoodAttempt(tries: seq<Try>, from: nat, attempts: nat, k: nat) {
    && from <= k < attempts && !TryAt(tries, k).lateAtStart && TryAt(tries, k).trouble == None
    && forall j | from <= j < k ::
         var t := TryAt(tries, j); t.trouble == Some(Transient) && !t.lateAtStart && !t.lateAtEnd && !t.napCancelled
  }

  lemma {:induction false} BuildSucceedsIff(tries: seq<Try>, from: nat, attempts: nat)
    requires from < attempts
    ensures Build(tries, from, attempts).failure == None <==> exists k :: GoodAttempt(tries, from, attempts, k)
    decreases attempts - from
  {
    var t := TryAt(tries, from);
    if t.trouble == None && !t.lateAtStart {
      assert GoodAttempt(tries, from, attempts, from);
    } else if from + 1 < attempts {
      var next := from + 1;
      BuildSucceedsIff(tries, next, attempts);
      if k :| GoodAttempt(tries, from, attempts, k) {
        assert GoodAttempt(tries, next, attempts, k);
      }
      if k :| GoodAttempt(tries, next, attempts, k) {
        if t.trouble == Some(Transient) && !t.lateAtStart && !t.lateAtEnd && !t.napCancelled {
          assert GoodAttempt(tries, from, attempts, k);
        }
      }
    }
  }

  /** Another address may help, and there is time for it. */
  predicate GoesOn(t: Try) {
    t.trouble == Some(Transient) && !t.lateAtStart && !t.lateAtEnd && !t.napCancelled
  }

  /** How the attempts fail: as the first one that does not go on says, or the last one. */
  lemma {:induction false} BuildFailsAs(tries: seq<Try>, from: nat, attempts: nat, k: nat)
    requires from <= k < attempts && forall j | from <= j < k :: GoesOn(TryAt(tries, j))
    requires TryAt(tries, k).lateAtStart || TryAt(tries, k).trouble.Some?
    requires GoesOn(TryAt(tries, k)) ==> k == attempts - 1
    ensures var b, t := Build(tries, from, attempts), TryAt(tries, k);
      && b.started == k - from + (if t.lateAtStart then 0 else 1) && b.failed == b.started
      && b.failure == Some(if t.lateAtStart then Ordinary
                           else if t.trouble.value.Refused? then t.trouble.value.failure
                           else if t.lateAtEnd || k == attempts - 1 then Ordinary else Cancelled)
    decreases k - from
  {
    if from < k {
      assert GoesOn(TryAt(tries, from));
      BuildFailsAs(tries, from + 1, attempts, k);
    }
  }

  /** A good attempt within the bound, and a bundle that was saved (and, with revalidation, read back). */
  ghost predicate Mints(cfg: Config, most: Option<int>, m: MintScript) {
    && (exists k :: GoodAttempt(m.tries, 0, Attempts(cfg, most), k))
    && if cfg.reuse then m.commit == Saved else !m.commit.SaveRaised?
  }

  /** A mint that goes well stores its bundle and gives the slot its address, its session and a clean record. */
  lemma MintSucceedsIff(cfg: Config, c: Cell, most: Option<int>, m: MintScript, id: Session)
    ensures var o := Mint(cfg, c, most, m, id);
      && (o.failure == None <==> Mints(cfg, most, m))
      && (o.failure == None ==>
            var token := if cfg.proxy then Some(m.token) else None;
            && o.cell.entry == Some(Bundle(token, m.savedAt, m.cookies))
            && o.cell.slot == c.slot.(token := token, proxyUrl := if cfg.proxy then Some(Sticky(m.token)) else None,
                                      session := Some(id), disposition := Healthy, recovery := None, nextProbe := 0.0, failures := 0,
                                      savedAt := if cfg.reuse then Some(m.savedAt) else c.slot.savedAt,
                                      aged := cfg.reuse && c.slot.aged && c.slot.savedAt == Some(m.savedAt)))
  {
    BuildSucceedsIff(m.tries, 0, Attempts(cfg, most));
  }

  /** What a mint that fails leaves: without a good attempt everything as it was; after one, the slot as it was and the
      new bundle, the old or none in the store, or the new address and session with its bundle but not its time. */
  lemma MintFailsAs(cfg: Config, c: Cell, most: Option<int>, m: MintScript, id: Session)
    requires !Mints(cfg, most, m)
    ensures var o := Mint(cfg, c, most, m, id);
      var built := exists k :: GoodAttempt(m.tries, 0, Attempts(cfg, most), k);
      var bundle := Bundle(if cfg.proxy then Some(m.token) else None, m.savedAt, m.cookies);
      && o.failure.Some? && !o.minted
      && (!built ==> o.cell == c)
      && (built && m.commit.SaveRaised? ==>
            o == Outcome(Cell(c.slot, if m.commit.kept then Some(bundle) else c.entry),
                         Some(if m.commit.cancelled then Cancelled else Ordinary), false))
      && (built && m.commit.ReadBackNone? ==>
            o == Outcome(Cell(c.slot, if m.commit.kept then Some(bundle) else None),
                         Some(if m.commit.cancelled then Cancelled else Ordinary), false))
      && (built && m.commit.ReadBackRaised? ==>
            && o.failure == Some(Ordinary) && o.cell.entry == Some(bundle)
            && o.cell.slot.session == Some(id) && o.cell.slot.token == bundle.token && o.cell.slot.savedAt == c.slot.savedAt
            && o.cell.slot.disposition == c.slot.disposition)
  {
    BuildSucceedsIff(m.tries, 0, Attempts(cfg, most));
  }

  /** The next probe is one pause away, doubling with each failure in a row up to thirty-two pauses. */
  lemma BackoffDoubles(cfg: Config, s: Slot, now: real)
    requires cfg.pause >= 0.0
    ensures var s' := EnterCooldown(cfg, s, now);
      && s'.disposition == Cooldown && s'.failures == s.failures + 1
      && s'.nextProbe == now + cfg.pause * (if s.failures == 0 then 1.0 else if s.failures == 1 then 2.0 else if s.failures == 2 then 4.0
                                            else if s.failures == 3 then 8.0 else if s.failures == 4 then 16.0 else 32.0)
  {
    assert Pow2(0) == 1 && Pow2(1) == 2 && Pow2(2) == 4 && Pow2(3) == 8 && Pow2(4) == 16 && Pow2(5) == 32;
  }

  // ----- validating a stored bundle

  /** The probe passed and the compare-and-set found the bundle it was made for. */
  predicate Confirms(cfg: Config, entry: Option<Bundle>, bundle: Bundle, v: ValidateScript) {
    var current := if v.meanwhile.Some? then v.meanwhile.value else entry;
    && (cfg.proxy ==> bundle.token.Some? && bundle.token.value != "")
    && v.probe == Passed && v.cas == Answered
    && current.Some? && current.value.savedAt == bundle.savedAt && current.value.token == bundle.token
  }

  predicate RejectsBundle(cfg: Config, bundle: Bundle, v: ValidateScript) {
    (cfg.proxy ==> bundle.token.Some? && bundle.token.value != "") && v.probe == Probe.Rejected && !v.closeCancelled
  }

  lemma VerdictIs(cfg: Config, c: Cell, bundle: Bundle, v: ValidateScript, id: Session)
    ensures var (c', verdict) := Revalidate(cfg, c, bundle, v, id);
      && (verdict == Confirmed <==> Confirms(cfg, c.entry, bundle, v))
      && (verdict == WasRejected <==> RejectsBundle(cfg, bundle, v))
      && (verdict == Confirmed ==>
            && c'.slot.session == Some(id) && c'.slot.token == bundle.token && c'.slot.savedAt == Some(bundle.savedAt)
            && c'.slot.disposition == Healthy && c'.slot.proxyUrl == (if cfg.proxy then Some(Sticky(bundle.token.value)) else None)
            && c'.entry == Some((if v.meanwhile.Some? then v.meanwhile.value else c.entry).value.(cookies := v.cookies)))
  {
  }

  /** A compare-and-set that raises may have stored the fresh cookies; the slot is as it was in any case. */
  lemma RaisedSwapIs(cfg: Config, c: Cell, bundle: Bundle, v: ValidateScript, id: Session)
    requires (cfg.proxy ==> bundle.token.Some? && bundle.token.value != "") && v.probe == Passed && v.cas.CasRaised?
    ensures var (c', verdict) := Revalidate(cfg, c, bundle, v, id);
      var current := if v.meanwhile.Some? then v.meanwhile.value else c.entry;
      var same := current.Some? && current.value.savedAt == bundle.savedAt && current.value.token == bundle.token;
      && c' == Cell(c.slot, if v.cas.kept && same then Some(current.value.(cookies := v.cookies)) else current)
      && verdict == (if v.closeCancelled then HardStop(Cancelled) else if v.cas.hard then HardStop(Ordinary) else Unclear)
  {
  }

  lemma ValidationSucceedsIff(cfg: Config, c: Cell, bundle: Bundle, p: Prep, id: Session)
    requires cfg.reuse
    ensures var o := RevalidateOrMint(cfg, c, bundle, p, id);
      && (o.failure == None <==>
            Confirms(cfg, c.entry, bundle, p.check) || (RejectsBundle(cfg, bundle, p.check) && Mints(cfg, Some(1), p.mint)))
      && (Confirms(cfg, c.entry, bundle, p.check) ==>
            && o.cell.slot.session == Some(id) && o.cell.slot.token == bundle.token && o.cell.slot.savedAt == Some(bundle.savedAt)
            && o.cell.slot.disposition == Healthy && !o.minted
            && o.cell.entry == Some((if p.check.meanwhile.Some? then p.check.meanwhile.value else c.entry).value.(cookies := p.check.cookies)))
      && (o.failure == None && !Confirms(cfg, c.entry, bundle, p.check) ==> o.minted && o.cell.slot.session == Some(id + 1))
  {
    var quarantined := c.(slot := c.slot.(disposition := Validate));
    var (c', verdict) := Revalidate(cfg, quarantined, bundle, p.check, id);
    VerdictIs(cfg, quarantined, bundle, p.check, id);
    MintSucceedsIff(cfg, c', Some(1), p.mint, id + 1);
  }

  /** What a validation that says nothing about the bundle leaves: a cooldown after which it is validated again. */
  lemma InconclusiveCoolsDown(cfg: Config, c: Cell, bundle: Bundle, p: Prep, id: Session)
    requires p.check.probe == Inconclusive && !p.check.closeCancelled
    ensures var o := RevalidateOrMint(cfg, c, bundle, p, id);
      && o.failure == Some(Ordinary) && o.cell.entry == c.entry && o.cell.slot.session == c.slot.session
      && o.cell.slot.disposition == Cooldown && o.cell.slot.recovery == Some(Validate)
  {
  }

  /** One that is stopped by a cost refusal or a cancellation leaves the slot to be validated, with that failure. */
  lemma StopQuarantines(cfg: Config, c: Cell, bundle: Bundle, p: Prep, id: Session)
    requires p.check.probe.Stopped? && !p.check.closeCancelled && (cfg.proxy ==> bundle.token.Some? && bundle.token.value != "")
    ensures RevalidateOrMint(cfg, c, bundle, p, id)
         == Outcome(c.(slot := c.slot.(disposition := Validate)), Some(p.check.probe.failure), false)
  {
  }

  /** Another process's bundle is not touched, and the slot is not given its old one. */
  lemma LostRaceQuarantines(cfg: Config, c: Cell, bundle: Bundle, p: Prep, id: Session, other: Option<Bundle>)
    requires p.check.probe == Passed && p.check.cas == Answered && p.check.meanwhile == Some(other) && !p.check.closeCancelled
    requires (cfg.proxy ==> bundle.token.Some? && bundle.token.value != "")
    requires other == None || other.value.savedAt != bundle.savedAt || other.value.token != bundle.token
    ensures RevalidateOrMint(cfg, c, bundle, p, id)
         == Outcome(Cell(c.slot.(disposition := Validate), other), Some(Ordinary), false)
  {
  }

  // ----- borrowing

  /** The stored bundle can be loaded and is the one the slot installed. */
  predicate Backed(c: Cell, load: Load) {
    load == Found && c.entry.Some? && c.slot.savedAt == Some(c.entry.value.savedAt) && c.slot.token == c.entry.value.token
  }

  ghost predicate Validates(cfg: Config, c: Cell, p: Prep) {
    && c.entry.Some?
    && (Confirms(cfg, c.entry, c.entry.value, p.check)
        || (RejectsBundle(cfg, c.entry.value, p.check) && Mints(cfg, Some(1), p.mint)))
  }

  /** With revalidation: a slot to be validated needs a backed bundle that validates; one to be replaced, too old or expired
      needs a mint; one without a session takes a usable stored bundle or a mint; a good one is lent as it is if it was
      verified recently, and validated otherwise. */
  lemma ReuseSucceedsIff(cfg: Config, c: Cell, p: Prep, id: Session)
    requires cfg.reuse && c.slot.disposition != Cooldown
    ensures Prepared(cfg, c, p, id).failure == None <==>
      if c.slot.disposition == Validate then Backed(c, p.load) && Validates(cfg, c, p)
      else if c.slot.disposition == Replace then Mints(cfg, Some(1), p.mint)
      else if c.slot.session == None || c.slot.savedAt == None then
        p.load != Raises
        && (if p.load == Found && c.entry.Some? && !p.bundleStale
               && (cfg.proxy ==> c.entry.value.token.Some? && c.entry.value.token.value != "")
            then Validates(cfg, c, p) else Mints(cfg, Some(1), p.mint))
      else if p.expired || c.slot.aged then Mints(cfg, Some(1), p.mint)
      else p.recent || (Backed(c, p.load) && Validates(cfg, c, p))
  {
    MintSucceedsIff(cfg, c, Some(1), p.mint, id);
    if c.entry.Some? {
      ValidationSucceedsIff(cfg, c, c.entry.value, p, id);
    }
  }

  /** Without: a slot is lent as it is unless it has no session, is too old, or was rejected or left unverified. */
  lemma LegacySucceedsIff(cfg: Config, c: Cell, p: Prep, id: Session)
    requires !cfg.reuse && c.slot.disposition != Cooldown
    ensures var asItIs := c.slot.disposition == Healthy && c.slot.session.Some? && !c.slot.aged;
      var o := Prepared(cfg, c, p, id);
      && (o.failure == None <==> asItIs || Mints(cfg, None, p.mint))
      && (asItIs ==> o.cell == c)
      && (!asItIs && o.failure == None ==> o.cell.slot.session == Some(id))
  {
    MintSucceedsIff(cfg, c, None, p.mint, id);
    MintSucceedsIff(cfg, c.(slot := c.slot.(disposition := Replace)), None, p.mint, id);
  }

  /** What a borrow that fails to mint leaves: an ordinary failure cools the slot down for replacement. */
  lemma FailedMintCoolsDown(cfg: Config, c: Cell, p: Prep, id: Session)
    requires c.slot.disposition == Replace && Prepared(cfg, c, p, id).failure.Some?
    ensures var o := Prepared(cfg, c, p, id);
      if o.failure == Some(Ordinary) then
        o.cell.slot.disposition == Cooldown && o.cell.slot.recovery == Some(Replace) && o.cell.slot.failures == c.slot.failures + 1
      else o.cell.slot.disposition == Replace
  {
  }

  // ----- giving a rejected slot back

  /** Given back to be replaced, a slot is replaced at once unless its borrow has just paid for a mint; an ordinary failure
      to do so cools it down and is no error of the release, any other one is. */
  lemma ReturnRemints(cfg: Config, c: Cell, r: Return, id: Session)
    requires if r.disposition.Some? then r.disposition.value == Replace && r.healthy != Some(true) else r.healthy == Some(false)
    requires r.remint && !(cfg.reuse && c.slot.minted)
    ensures var most := if cfg.reuse then Some(1) else None;
      var o, mint := Returned(cfg, c, r, id), Mint(cfg, c.(slot := c.slot.(disposition := Replace)), most, r.mint, id);
      && o.failure == (if mint.failure == Some(Ordinary) then None else mint.failure)
      && (mint.failure == None <==> Mints(cfg, most, r.mint))
      && (mint.failure == None ==> o.cell.slot.session == Some(id) && o.cell.slot.disposition == Healthy)
      && (mint.failure == Some(Ordinary) ==> o.cell.slot.disposition == Cooldown && o.cell.slot.recovery == Some(Replace))
      && (mint.failure.Some? && mint.failure != Some(Ordinary) ==> o.cell.slot.disposition == Replace)
      && o.cell.entry == mint.cell.entry && !o.cell.slot.busy && !o.cell.slot.minted
  {
    var most := if cfg.reuse then Some(1) else None;
    MintSucceedsIff(cfg, c.(slot := c.slot.(disposition := Replace)), most, r.mint, id);
  }

  /** One that was, or for which no replacement is wanted, keeps its session and is replaced by the next borrow. */
  lemma ReturnLeavesForLater(cfg: Config, c: Cell, r: Return, id: Session)
    requires if r.disposition.Some? then r.disposition.value == Replace && r.healthy != Some(true) else r.healthy == Some(false)
    requires !r.remint || (cfg.reuse && c.slot.minted)
    ensures Returned(cfg, c, r, id)
         == Outcome(c.(slot := c.slot.(disposition := Replace, minted := false, busy := false)), None, false)
  {
  }
}
