/** One slot of the residential session pool together with its durable bundle: minting, revalidating, lending, taking back. */
module SlotLifecycle {
  import opened Base

  type Session = nat
  type Token = string

  /** The proxy URL is a function of the sticky token; base address and lifetime are fixed. */
  datatype Url = Sticky(token: Token)

  datatype Disposition = Healthy | Validate | Replace | Cooldown

  /** `pause` is the cooldown base in seconds; `retries` is the configured number of mint attempts. */
  datatype Config = Config(reuse: bool, proxy: bool, pause: real, retries: int)

  /** `aged`: the limit on the age of the bundle (without revalidation, of the session) has been reached; as that age
      never decreases, it stays so until another bundle (another session) is installed. */
  datatype Slot = Slot(
    token: Option<Token>,
    proxyUrl: Option<Url>,
    session: Option<Session>,
    busy: bool,
    savedAt: Option<real>,
    minted: bool,
    disposition: Disposition,
    recovery: Option<Disposition>,
    nextProbe: real,
    failures: nat,
    aged: bool)

  datatype Bundle = Bundle(token: Option<Token>, savedAt: real, cookies: nat)

  /** A slot and what the cookie store holds under its index. */
  datatype Cell = Cell(slot: Slot, entry: Option<Bundle>)

  /** A cost-control refusal, a cancellation (any exception that is not an ordinary one), or any other exception. */
  datatype Failure = Cost | Cancelled | Ordinary

  datatype Outcome = Outcome(cell: Cell, failure: Option<Failure>, minted: bool)

  const FRESH := Slot(None, None, None, false, None, false, Healthy, None, 0.0, 0, false)
  const MAX_STICKY_IPS := 3
  const MAX_BACKOFF_EXPONENT := 5

  // ----- what the outside world answers

  /** `Transient`: an exception for which another egress address may help. */
  datatype Trouble = Transient | Refused(failure: Failure)

  datatype Try = Try(lateAtStart: bool, trouble: Option<Trouble>, lateAtEnd: bool, napCancelled: bool)

  /** How committing a built candidate ends. `kept`: the store holds the new bundle all the same.
      `cancelled`: closing the refused candidate was itself cancelled. */
  datatype Commit =
    | Saved
    | SaveRaised(kept: bool, cancelled: bool)
    | ReadBackNone(kept: bool, cancelled: bool)
    | ReadBackRaised

  datatype MintScript = MintScript(tries: seq<Try>, token: Token, savedAt: real, cookies: nat, commit: Commit)

  datatype Probe = Passed | Stopped(failure: Failure) | Rejected | Inconclusive

  datatype CasReply = Answered | CasRaised(hard: bool, kept: bool)

  /** `meanwhile`: another process replaced the stored bundle between the load and the compare-and-set. */
  datatype ValidateScript = ValidateScript(
    probe: Probe, meanwhile: Option<Option<Bundle>>, cookies: nat, cas: CasReply, closeCancelled: bool)

  datatype Load = Found | Hidden | Raises

  /** `expired`: the wall clock is past the expiry of the slot's cookies. `bundleStale`: a stored bundle is expired or
      past the hard age. `recent`: below the soft age or verified recently. */
  datatype Prep = Prep(
    load: Load, bundleStale: bool, expired: bool, recent: bool,
    check: ValidateScript, mint: MintScript, now: real)

  datatype Return = Return(healthy: Option<bool>, disposition: Option<Disposition>, remint: bool, mint: MintScript, now: real)

  // ----- dispositions

  function MarkHealthy(s: Slot): Slot {
    s.(disposition := Healthy, recovery := None, nextProbe := 0.0, failures := 0)
  }

  function Pow2(n: nat): nat {
    if n == 0 then 1 else 2 * Pow2(n - 1)
  }

  function Backoff(failures: nat): nat {
    if failures <= 1 then 1
    else Pow2(if failures - 1 <= MAX_BACKOFF_EXPONENT then failures - 1 else MAX_BACKOFF_EXPONENT)
  }

  function EnterCooldown(cfg: Config, s: Slot, now: real): Slot {
    var base := if cfg.pause < 0.0 then 0.0 else cfg.pause;
    s.(failures := s.failures + 1,
       recovery := Some(if s.disposition == Validate then Validate else Replace),
       disposition := Cooldown,
       nextProbe := now + base * Backoff(s.failures + 1) as real)
  }

  function Expired(s: Slot, now: real): Slot {
    if s.disposition != Cooldown || now < s.nextProbe then s
    else s.(disposition := if s.recovery.Some? then s.recovery.value else Replace, recovery := None, nextProbe := 0.0)
  }

  // ----- minting

  function TryAt(tries: seq<Try>, k: nat): Try {
    if k < |tries| then tries[k] else Try(false, None, false, false)
  }

  function Attempts(cfg: Config, most: Option<int>): (n: nat)
    ensures 1 <= n <= MAX_STICKY_IPS
  {
    var wanted := if cfg.retries < 1 then 1 else cfg.retries;
    var n := if wanted < MAX_STICKY_IPS then wanted else MAX_STICKY_IPS;
    if most == None then n
    else
      var cap := if most.value < 1 then 1 else most.value;
      if cap < n then cap else n
  }

  /** How the attempts from number `k` on end, with how many were started and how many failed. */
  datatype Built = Built(failure: Option<Failure>, started: nat, failed: nat)

  function Build(tries: seq<Try>, k: nat, attempts: nat): Built
    requires k < attempts
    decreases attempts - k
  {
    var t := TryAt(tries, k);
    if t.lateAtStart then Built(Some(Ordinary), 0, 0)
    else match t.trouble
      case None => Built(None, 1, 0)
      case Some(Refused(f)) => Built(Some(f), 1, 1)
      case Some(Transient) =>
        if t.lateAtEnd || k + 1 == attempts then Built(Some(Ordinary), 1, 1)
        else if t.napCancelled then Built(Some(Cancelled), 1, 1)
        else
          var rest := Build(tries, k + 1, attempts);
          Built(rest.failure, rest.started + 1, rest.failed + 1)
  }

  function UrlOf(cfg: Config, token: Option<Token>): Option<Url> {
    if cfg.proxy && token.Some? then Some(Sticky(token.value)) else None
  }

  function NewBundle(cfg: Config, m: MintScript): Bundle {
    Bundle(if cfg.proxy then Some(m.token) else None, m.savedAt, m.cookies)
  }

  function Closing(cancelled: bool): Failure {
    if cancelled then Cancelled else Ordinary
  }

  /** Another bundle starts with an age of its own. */
  function Anchored(s: Slot, savedAt: real): Slot {
    s.(savedAt := Some(savedAt), aged := s.aged && s.savedAt == Some(savedAt))
  }

  /** Committing a candidate that was built: the store is written before the slot is. */
  function Committed(cfg: Config, c: Cell, m: MintScript, id: Session): Outcome {
    var bundle := NewBundle(cfg, m);
    var installed := c.slot.(token := bundle.token, proxyUrl := UrlOf(cfg, bundle.token), session := Some(id),
                             aged := cfg.reuse && c.slot.aged);
    match m.commit
    case SaveRaised(kept, cancelled) =>
      Outcome(c.(entry := if kept then Some(bundle) else c.entry), Some(Closing(cancelled)), false)
    case ReadBackNone(kept, cancelled) =>
      if cfg.reuse then Outcome(c.(entry := if kept then Some(bundle) else None), Some(Closing(cancelled)), false)
      else Outcome(Cell(MarkHealthy(installed), Some(bundle)), None, false)
    case ReadBackRaised =>
      if cfg.reuse then Outcome(Cell(installed, Some(bundle)), Some(Ordinary), false)
      else Outcome(Cell(MarkHealthy(installed), Some(bundle)), None, false)
    case Saved =>
      Outcome(Cell(MarkHealthy(if cfg.reuse then Anchored(installed, bundle.savedAt) else installed), Some(bundle)), None, false)
  }

  /** A new sticky address and session for the slot. */
  function Mint(cfg: Config, c: Cell, most: Option<int>, m: MintScript, id: Session): Outcome {
    var b := Build(m.tries, 0, Attempts(cfg, most));
    if b.failure.Some? then Outcome(c, b.failure, false) else Committed(cfg, c, m, id)
  }

  function MintOnce(cfg: Config, c: Cell, m: MintScript, now: real, id: Session): Outcome {
    var o := Mint(cfg, c, Some(1), m, id);
    if o.failure == Some(Ordinary) then o.(cell := o.cell.(slot := EnterCooldown(cfg, o.cell.slot, now)))
    else if o.failure.Some? then o
    else Outcome(o.cell.(slot := MarkHealthy(o.cell.slot).(minted := true)), None, true)
  }

  // ----- revalidating

  predicate NoToken(token: Option<Token>) {
    token == None || token == Some("")
  }

  /** The compare-and-set of the cookie store: only the cookies of a still current bundle change. */
  function ReplaceIfCurrent(entry: Option<Bundle>, savedAt: real, token: Option<Token>, cookies: nat): (Option<Bundle>, bool) {
    if entry.Some? && entry.value.savedAt == savedAt && entry.value.token == token
    then (Some(entry.value.(cookies := cookies)), true)
    else (entry, false)
  }

  datatype Verdict = Confirmed | HardStop(failure: Failure) | WasRejected | Unclear

  function Closed(v: ValidateScript, verdict: Verdict): Verdict {
    if v.closeCancelled then HardStop(Cancelled) else verdict
  }

  function Revalidate(cfg: Config, c: Cell, bundle: Bundle, v: ValidateScript, id: Session): (Cell, Verdict) {
    if cfg.proxy && NoToken(bundle.token) then (c, Unclear)
    else match v.probe
      case Stopped(f) => (c, Closed(v, HardStop(f)))
      case Rejected => (c, Closed(v, WasRejected))
      case Inconclusive => (c, Closed(v, Unclear))
      case Passed =>
        var current := if v.meanwhile.Some? then v.meanwhile.value else c.entry;
        var (replaced, ok) := ReplaceIfCurrent(current, bundle.savedAt, bundle.token, v.cookies);
        match v.cas
        case CasRaised(hard, kept) =>
          (c.(entry := if kept then replaced else current), Closed(v, if hard then HardStop(Ordinary) else Unclear))
        case Answered =>
          if !ok then (c.(entry := current), Closed(v, HardStop(Ordinary)))
          else
            (Cell(MarkHealthy(Anchored(c.slot, bundle.savedAt)
                                .(token := bundle.token, proxyUrl := UrlOf(cfg, bundle.token), session := Some(id))), replaced),
             Confirmed)
  }

  function AfterVerdict(cfg: Config, c: Cell, verdict: Verdict, p: Prep, id: Session): Outcome {
    match verdict
    case Confirmed => Outcome(c, None, false)
    case HardStop(f) => Outcome(c, Some(f), false)
    case Unclear => Outcome(c.(slot := EnterCooldown(cfg, c.slot, p.now)), Some(Ordinary), false)
    case WasRejected => MintOnce(cfg, c, p.mint, p.now, id)
  }

  /** Any failed validation leaves the slot in quarantine until its outcome is closed. */
  function RevalidateOrMint(cfg: Config, c: Cell, bundle: Bundle, p: Prep, id: Session): Outcome {
    var quarantined := c.(slot := c.slot.(disposition := Validate));
    var (c', verdict) := Revalidate(cfg, quarantined, bundle, p.check, id);
    AfterVerdict(cfg, c', verdict, p, id + 1)
  }

  // ----- preparing a chosen slot

  function Loaded(c: Cell, load: Load): Option<Bundle> {
    if load == Found then c.entry else None
  }

  function Initialize(cfg: Config, c: Cell, p: Prep, id: Session): Outcome {
    var bundle := Loaded(c, p.load);
    if p.load == Raises then Outcome(c, Some(Ordinary), false)
    else if bundle == None || (cfg.proxy && NoToken(bundle.value.token)) || p.bundleStale then
      Mint(cfg, c, Some(1), p.mint, id).(minted := true)
    else RevalidateOrMint(cfg, c, bundle.value, p, id)
  }

  /** The stored bundle is the one this slot installed. */
  predicate Matches(s: Slot, entry: Option<Bundle>) {
    entry.Some? && s.savedAt == Some(entry.value.savedAt) && s.token == entry.value.token
  }

  function ValidateStored(cfg: Config, c: Cell, p: Prep, id: Session): Outcome {
    if p.load == Raises || !Matches(c.slot, Loaded(c, p.load)) then Outcome(c, Some(Ordinary), false)
    else RevalidateOrMint(cfg, c, c.entry.value, p, id)
  }

  function NoteMinted(o: Outcome): Outcome {
    if o.failure.Some? then o else o.(cell := o.cell.(slot := o.cell.slot.(minted := o.minted)))
  }

  function PrepareReuse(cfg: Config, c: Cell, p: Prep, id: Session): Outcome {
    if c.slot.disposition == Validate then NoteMinted(ValidateStored(cfg, c, p, id))
    else if c.slot.disposition == Replace then MintOnce(cfg, c, p.mint, p.now, id)
    else if c.slot.session == None || c.slot.savedAt == None then NoteMinted(Initialize(cfg, c, p, id))
    else if p.expired || c.slot.aged then MintOnce(cfg, c, p.mint, p.now, id)
    else if p.recent then Outcome(c, None, false)
    else NoteMinted(ValidateStored(cfg, c, p, id))
  }

  function PrepareLegacy(cfg: Config, c: Cell, p: Prep, id: Session): Outcome {
    var c0 := if c.slot.disposition == Validate then c.(slot := c.slot.(disposition := Replace)) else c;
    if c0.slot.disposition == Replace || c0.slot.session == None || c0.slot.aged then
      var o := Mint(cfg, c0, None, p.mint, id);
      if o.failure == Some(Ordinary) then o.(cell := o.cell.(slot := EnterCooldown(cfg, o.cell.slot, p.now)))
      else if o.failure.Some? then o
      else o.(cell := o.cell.(slot := MarkHealthy(o.cell.slot)))
    else Outcome(c0, None, false)
  }

  function Prepared(cfg: Config, c: Cell, p: Prep, id: Session): Outcome {
    if cfg.reuse then PrepareReuse(cfg, c, p, id) else PrepareLegacy(cfg, c, p, id)
  }

  // ----- taking a slot back

  function ReleaseDisposition(r: Return): Option<Disposition> {
    if r.disposition.Some? then
      if r.healthy.Some? && r.disposition.value != (if r.healthy.value then Healthy else Replace) then None else r.disposition
    else Some(if r.healthy == Some(false) then Replace else Healthy)
  }

  function Remint(cfg: Config, c: Cell, r: Return, id: Session): Outcome {
    var o := if cfg.reuse then MintOnce(cfg, c, r.mint, r.now, id) else Mint(cfg, c, None, r.mint, id);
    if o.failure != Some(Ordinary) then o
    else
      var slot := if o.cell.slot.disposition != Cooldown then EnterCooldown(cfg, o.cell.slot, r.now) else o.cell.slot;
      Outcome(o.cell.(slot := slot), None, false)
  }

  function Freed(s: Slot): Slot {
    s.(minted := false, busy := false)
  }

  /** The body of the `try`: the disposition, and a new address if one is due. */
  function Disposed(cfg: Config, c: Cell, r: Return, id: Session): Outcome {
    var d := ReleaseDisposition(r);
    if d == None then Outcome(c, Some(Ordinary), false)
    else
      var c1 := c.(slot := c.slot.(disposition := d.value));
      if d.value == Replace && r.remint && !(cfg.reuse && c.slot.minted) then Remint(cfg, c1, r, id) else Outcome(c1, None, false)
  }

  function Returned(cfg: Config, c: Cell, r: Return, id: Session): Outcome {
    var o := Disposed(cfg, c, r, id);
    o.(cell := o.cell.(slot := Freed(o.cell.slot)))
  }
}
