/** What one rule, the restart rules and the heartbeat guarantee over any sequence of ticks. */
module AlertRuns {
  import opened Base
  import opened AlertPolicy

  /** How the delivery of a tick's event ended; `Unrecorded` is a crash after sending, before saving. */
  datatype Outcome = Delivered | Failed | Unrecorded

  datatype Tick = Tick(result: RuleResult, now: Time, outcome: Outcome)

  function Recorded(e: Entry, event: Option<AlertEvent>, now: Time, outcome: Outcome): Entry {
    if event == None || outcome == Unrecorded then e
    else if outcome == Delivered then RecordSuccess(e, event.value, now)
    else RecordFailure(e)
  }

  function AfterTick(e: Entry, t: Tick): Entry {
    var (stepped, event) := StepEntry(e, t.result, t.now);
    Recorded(stepped, event, t.now, t.outcome)
  }

  function Emits(e: Entry, t: Tick): Option<AlertEvent> {
    StepEntry(e, t.result, t.now).1
  }

  // ----- one rule, watched

  /** A firing that was sent; `separated`: an inactive tick or a severity change came since the one before;
      `recorded`: the state saved afterwards says that it was sent. */
  datatype Sent = Sent(at: Time, separated: bool, recorded: bool)

  datatype Watch = Watch(entry: Entry, clock: Time, log: seq<Sent>, separated: bool, episodeFired: bool)

  predicate Breaks(e: Entry, r: RuleResult) {
    !r.active || (e.activeSince.Some? && e.lastSeverity != Some(r.severity))
  }

  predicate SendsFiring(e: Entry, t: Tick) {
    Emits(e, t).Some? && Emits(e, t).value.kind == Firing && t.outcome != Failed
  }

  /** Sent and recorded. */
  predicate DeliversFiring(e: Entry, t: Tick) {
    SendsFiring(e, t) && t.outcome == Delivered
  }

  function Observe(w: Watch, t: Tick): Watch {
    var sent := SendsFiring(w.entry, t);
    var separated := w.separated || Breaks(w.entry, t.result);
    var newEpisode := t.result.active && w.entry.activeSince == None;
    Watch(AfterTick(w.entry, t), t.now,
          if sent then w.log + [Sent(t.now, separated, t.outcome == Delivered)] else w.log,
          if sent then false else separated,
          (!newEpisode && w.episodeFired) || DeliversFiring(w.entry, t))
  }

  function Watched(ts: seq<Tick>, start: Time): Watch {
    if ts == [] then Watch(EMPTY_ENTRY, start, [], true, false)
    else Observe(Watched(ts[..|ts| - 1], start), ts[|ts| - 1])
  }

  ghost predicate OfOneRule(ts: seq<Tick>) {
    forall t | t in ts :: t.result.key != HEARTBEAT_KEY
  }

  /** Cooldowns of at least this many seconds, and a clock that does not go back. */
  ghost predicate Proper(ts: seq<Tick>, start: Time, cooldown: int) {
    && OfOneRule(ts)
    && (forall i | 0 <= i < |ts| :: ts[i].result.cooldown >= cooldown && ts[i].now >= start)
    && (forall i, j | 0 <= i < j < |ts| :: ts[i].now <= ts[j].now)
  }

  ghost predicate PendingInv(w: Watch) {
    w.entry.pending.Some? ==>
      match w.entry.pending.value.kind
      case Firing => w.entry.activeSince.Some? && w.entry.lastSeverity == Some(w.entry.pending.value.severity)
      case Resolved => w.entry.activeSince == None && w.episodeFired
  }

  /** What holds for any clock and any cooldowns. */
  ghost predicate EpisodeInv(w: Watch) {
    && (w.entry.notified ==> w.entry.activeSince.Some? && w.episodeFired)
    && (w.entry.activeSince.Some? <==> w.entry.lastSeverity.Some?)
    && PendingInv(w)
  }

  lemma ActiveKeepsEpisode(w: Watch, t: Tick)
    requires EpisodeInv(w) && t.result.key != HEARTBEAT_KEY && t.result.active
    ensures EpisodeInv(Observe(w, t))
  {
    var (stepped, event) := StepActive(w.entry.(lastValue := t.result.value), t.result, t.now);
    assert event.Some? ==> event.value.kind == Firing && stepped.pending == Some(PendingOf(event.value));
    assert stepped.activeSince.Some? && stepped.lastSeverity == Some(t.result.severity);
  }

  lemma InactiveKeepsEpisode(w: Watch, t: Tick)
    requires EpisodeInv(w) && t.result.key != HEARTBEAT_KEY && !t.result.active
    ensures EpisodeInv(Observe(w, t))
  {
    var (stepped, event) := StepInactive(w.entry.(lastValue := t.result.value), t.result);
    assert stepped.activeSince == None && stepped.lastSeverity == None && !stepped.notified;
    assert event.Some? ==> event.value.kind == Resolved;
  }

  lemma ObserveKeepsEpisode(w: Watch, t: Tick)
    requires EpisodeInv(w) && t.result.key != HEARTBEAT_KEY
    ensures EpisodeInv(Observe(w, t))
  {
    if t.result.active {
      ActiveKeepsEpisode(w, t);
    } else {
      InactiveKeepsEpisode(w, t);
    }
  }

  lemma {:induction false} WatchedEpisode(ts: seq<Tick>, start: Time)
    requires OfOneRule(ts)
    ensures EpisodeInv(Watched(ts, start))
  {
    if ts != [] {
      WatchedEpisode(ts[..|ts| - 1], start);
      ObserveKeepsEpisode(Watched(ts[..|ts| - 1], start), ts[|ts| - 1]);
    }
  }

  /** A resolution is emitted only after a firing of that episode was delivered, for any clock and any cooldowns. */
  lemma ResolvedAfterFiring(ts: seq<Tick>, start: Time, t: Tick)
    requires OfOneRule(ts) && t.result.key != HEARTBEAT_KEY
    requires var event := Emits(Watched(ts, start).entry, t); event.Some? && event.value.kind == Resolved
    ensures !t.result.active && Watched(ts, start).episodeFired
  {
    WatchedEpisode(ts, start);
  }

  ghost predicate SinceLastInv(w: Watch, cooldown: int) {
    w.log != [] && !w.separated && w.log[|w.log| - 1].recorded ==>
      var last := Truncated(w.log[|w.log| - 1].at);
      && w.entry.activeSince.Some? && w.entry.notified && w.entry.lastSentAt == Some(last)
      && (w.entry.pending.Some? ==> w.clock - last >= cooldown * SECOND)
  }

  ghost predicate Spaced(log: seq<Sent>, cooldown: int) {
    forall i | 1 <= i < |log| && !log[i].separated && log[i - 1].recorded ::
      log[i].at - Truncated(log[i - 1].at) >= cooldown * SECOND
  }

  ghost predicate InTime(log: seq<Sent>, clock: Time) {
    && (forall i | 0 <= i < |log| :: log[i].at <= clock)
    && (forall i, j | 0 <= i < j < |log| :: log[i].at <= log[j].at)
  }

  ghost predicate WatchInv(w: Watch, cooldown: int) {
    EpisodeInv(w) && SinceLastInv(w, cooldown) && Spaced(w.log, cooldown) && InTime(w.log, w.clock)
  }

  /** A firing sent unseparated after a recorded one comes when the cooldown is over. */
  lemma SendingWaits(w: Watch, t: Tick, cooldown: int)
    requires WatchInv(w, cooldown) && t.now >= w.clock && t.result.cooldown >= cooldown
    requires SendsFiring(w.entry, t) && w.log != [] && !w.separated && !Breaks(w.entry, t.result) && w.log[|w.log| - 1].recorded
    ensures t.now - Truncated(w.log[|w.log| - 1].at) >= cooldown * SECOND
  {
  }

  lemma ObserveKeepsSince(w: Watch, t: Tick, cooldown: int)
    requires WatchInv(w, cooldown) && t.now >= w.clock
    requires t.result.cooldown >= cooldown && t.result.key != HEARTBEAT_KEY
    ensures SinceLastInv(Observe(w, t), cooldown)
  {
    if SendsFiring(w.entry, t) {
      assert Observe(w, t).log[|w.log|].at == t.now;
    }
  }

  lemma ObserveKeepsInv(w: Watch, t: Tick, cooldown: int)
    requires WatchInv(w, cooldown) && t.now >= w.clock
    requires t.result.cooldown >= cooldown && t.result.key != HEARTBEAT_KEY
    ensures WatchInv(Observe(w, t), cooldown)
  {
    ObserveKeepsEpisode(w, t);
    ObserveKeepsSince(w, t, cooldown);
    var log := Observe(w, t).log;
    if SendsFiring(w.entry, t) {
      var separated := w.separated || Breaks(w.entry, t.result);
      assert log == w.log + [Sent(t.now, separated, t.outcome == Delivered)];
      if w.log != [] && !separated && w.log[|w.log| - 1].recorded {
        SendingWaits(w, t, cooldown);
      }
    }
    assert Spaced(log, cooldown);
  }

  lemma {:induction false} WatchedInv(ts: seq<Tick>, start: Time, cooldown: int)
    requires Proper(ts, start, cooldown)
    ensures WatchInv(Watched(ts, start), cooldown)
    ensures Watched(ts, start).clock == if ts == [] then start else ts[|ts| - 1].now
  {
    if ts != [] {
      WatchedInv(ts[..|ts| - 1], start, cooldown);
      ObserveKeepsInv(Watched(ts[..|ts| - 1], start), ts[|ts| - 1], cooldown);
    }
  }

  /** Of two firings sent with no inactive tick and no severity change between them, the later is a cooldown away,
      measured from the second in which the earlier was stored, unless the recording of the earlier was lost. */
  lemma FiringsAreSpaced(ts: seq<Tick>, start: Time, cooldown: int, i: nat, j: nat)
    requires Proper(ts, start, cooldown)
    requires var log := Watched(ts, start).log;
      i < j < |log| && (forall k | i < k <= j :: !log[k].separated) && log[i].recorded
    ensures var log := Watched(ts, start).log;
      && log[j].at - Truncated(log[i].at) >= cooldown * SECOND
      && log[j].at - log[i].at > (cooldown - 1) * SECOND
      && (log[i].at % SECOND == 0 ==> log[j].at - log[i].at >= cooldown * SECOND)
  {
    WatchedInv(ts, start, cooldown);
    assert !Watched(ts, start).log[i + 1].separated;
  }

  // ----- when exactly a firing is sent again, for any clock and any cooldowns

  /** The last firing sent was recorded, and nothing separates the next one from it. */
  predicate AwaitsCooldown(w: Watch) {
    w.log != [] && !w.separated && w.log[|w.log| - 1].recorded
  }

  /** Tick `k` came after the last firing of `log`, was due by its cooldown, and could not be sent. */
  ghost predicate DueUnsent(ts: seq<Tick>, start: Time, k: nat, log: seq<Sent>) {
    k < |ts| && log != []
    && var before := Watched(ts[..k], start);
       && before.log == log && ts[k].outcome == Failed && Emits(before.entry, ts[k]).Some?
       && ts[k].now - Truncated(log[|log| - 1].at) >= ts[k].result.cooldown * SECOND
  }

  /** Something is pending exactly if such a tick was. */
  ghost predicate SinceInv(ts: seq<Tick>, start: Time) {
    var w := Watched(ts, start);
    AwaitsCooldown(w) ==>
      && w.entry.activeSince.Some? && w.entry.notified && w.entry.lastSentAt == Some(Truncated(w.log[|w.log| - 1].at))
      && (w.entry.pending.Some? <==> exists k :: DueUnsent(ts, start, k, w.log))
  }

  lemma {:induction false} LogGrows(ts: seq<Tick>, start: Time, k: nat)
    requires k <= |ts|
    ensures |Watched(ts[..k], start).log| <= |Watched(ts, start).log|
    decreases |ts|
  {
    if k < |ts| {
      assert ts[..|ts| - 1][..k] == ts[..k];
      LogGrows(ts[..|ts| - 1], start, k);
    } else {
      assert ts[..k] == ts;
    }
  }

  lemma DueUnsentOfLonger(ts: seq<Tick>, start: Time, k: nat, log: seq<Sent>)
    requires ts != [] && k < |ts| - 1
    ensures DueUnsent(ts, start, k, log) <==> DueUnsent(ts[..|ts| - 1], start, k, log)
  {
    assert ts[..|ts| - 1][..k] == ts[..k];
  }

  /** A firing that was sent and recorded leaves nothing pending. */
  lemma SentLeavesNothing(ts: seq<Tick>, start: Time)
    requires ts != [] && OfOneRule(ts)
    requires SendsFiring(Watched(ts[..|ts| - 1], start).entry, ts[|ts| - 1])
    ensures SinceInv(ts, start)
  {
    var w, w' := Watched(ts[..|ts| - 1], start), Watched(ts, start);
    assert ts[|ts| - 1] in ts;
    WatchedEpisode(ts, start);
    assert |w'.log| == |w.log| + 1 && w'.log[|w.log|].at == ts[|ts| - 1].now;
    forall k: nat | k < |ts| ensures !DueUnsent(ts, start, k, w'.log) {
      assert ts[..|ts| - 1][..k] == ts[..k];
      LogGrows(ts[..|ts| - 1], start, k);
    }
  }

  /** A tick that sends no firing adds a due one, or leaves what there was. */
  lemma UnsentKeepsSince(ts: seq<Tick>, start: Time)
    requires ts != [] && OfOneRule(ts) && SinceInv(ts[..|ts| - 1], start)
    requires !SendsFiring(Watched(ts[..|ts| - 1], start).entry, ts[|ts| - 1])
    ensures SinceInv(ts, start)
  {
    var n := |ts| - 1;
    var w, w', t := Watched(ts[..n], start), Watched(ts, start), ts[n];
    assert t in ts;
    WatchedEpisode(ts[..n], start);
    if AwaitsCooldown(w') {
      assert w'.log == w.log && AwaitsCooldown(w) && !Breaks(w.entry, t.result);
      UnsentTick(w, t);
      assert DueUnsent(ts, start, n, w.log) <==>
        Emits(w.entry, t).Some? && t.now - Truncated(w.log[|w.log| - 1].at) >= t.result.cooldown * SECOND;
      forall k: nat | k < n ensures DueUnsent(ts, start, k, w.log) <==> DueUnsent(ts[..n], start, k, w.log) {
        DueUnsentOfLonger(ts, start, k, w.log);
      }
      if w.entry.pending.Some? {
        var k :| DueUnsent(ts[..n], start, k, w.log);
        assert DueUnsent(ts, start, k, w.log);
      }
    }
  }

  lemma UnsentTick(w: Watch, t: Tick)
    requires EpisodeInv(w) && t.result.key != HEARTBEAT_KEY && !Breaks(w.entry, t.result) && !SendsFiring(w.entry, t)
    requires w.entry.activeSince.Some? && w.entry.notified && w.entry.lastSentAt.Some?
    ensures var e := AfterTick(w.entry, t);
      && e.activeSince == w.entry.activeSince && e.notified && e.lastSentAt == w.entry.lastSentAt
      && (Emits(w.entry, t).Some? ==> t.outcome == Failed)
      && (e.pending.Some? <==> w.entry.pending.Some? || Emits(w.entry, t).Some?)
      && (w.entry.pending == None && Emits(w.entry, t).Some? ==>
            t.now - w.entry.lastSentAt.value >= t.result.cooldown * SECOND)
  {
  }

  lemma {:induction false} WatchedSince(ts: seq<Tick>, start: Time)
    requires OfOneRule(ts)
    ensures SinceInv(ts, start)
  {
    if ts != [] {
      WatchedSince(ts[..|ts| - 1], start);
      if SendsFiring(Watched(ts[..|ts| - 1], start).entry, ts[|ts| - 1]) {
        SentLeavesNothing(ts, start);
      } else {
        UnsentKeepsSince(ts, start);
      }
    }
  }

  /** After any run, with any clock and any cooldowns: a tick of the same condition sends a firing again exactly if its
      cooldown is over, or one since the last firing was due and could not be sent. */
  lemma FiringIsRepeatedIff(ts: seq<Tick>, start: Time, t: Tick)
    requires OfOneRule(ts) && t.result.key != HEARTBEAT_KEY && t.outcome != Failed
    requires AwaitsCooldown(Watched(ts, start)) && !Breaks(Watched(ts, start).entry, t.result)
    ensures var w := Watched(ts, start); var last := w.log[|w.log| - 1];
      w.entry.activeSince.Some?
      && (SendsFiring(w.entry, t) <==>
            || (t.now - w.entry.activeSince.value >= t.result.persistFor * SECOND
                && t.now - Truncated(last.at) >= t.result.cooldown * SECOND)
            || exists k :: DueUnsent(ts, start, k, w.log))
  {
    WatchedEpisode(ts, start);
    WatchedSince(ts, start);
  }

  /** Whether the next tick of the same condition sends again: always if the recording was lost or the sending failed,
      otherwise once the cooldown is over. */
  lemma NextTickRepeatsIff(e: Entry, t: Tick, next: Tick)
    requires Emits(e, t).Some? && Emits(e, t).value.kind == Firing && t.result.key != HEARTBEAT_KEY && t.result.active
    requires next.result.active && next.result.severity == t.result.severity
    ensures var after := AfterTick(e, t);
      after.activeSince.Some?
      && (Emits(after, next).Some? <==>
            || t.outcome != Delivered
            || (next.now - after.activeSince.value >= next.result.persistFor * SECOND
                && next.now - Truncated(t.now) >= next.result.cooldown * SECOND))
  {
  }

  function Alarm(key: string, cooldown: int): RuleResult {
    RuleResult(key, Critical, true, 0, cooldown, "down", NoValue, true)
  }

  lemma WatchedTwo(t0: Tick, t1: Tick, start: Time)
    ensures Watched([t0, t1], start) == Observe(Observe(Watched([], start), t0), t1)
  {
    assert [t0, t1][..1] == [t0] && [t0][..0] == [];
  }

  /** A lost recording does repeat a firing: sent, then a crash before the state was saved, then sent again at the
      next tick, at any distance from it. */
  lemma LostRecordingRepeats(key: string, cooldown: int, at: Time, later: Time)
    requires key != HEARTBEAT_KEY && at <= later
    ensures var ts := [Tick(Alarm(key, cooldown), at, Unrecorded), Tick(Alarm(key, cooldown), later, Delivered)];
      && Proper(ts, at, cooldown)
      && Watched(ts, at).log == [Sent(at, true, false), Sent(later, false, true)]
  {
    var t0 := Tick(Alarm(key, cooldown), at, Unrecorded);
    var t1 := Tick(Alarm(key, cooldown), later, Delivered);
    WatchedTwo(t0, t1, at);
    var w1 := Observe(Watched([], at), t0);
    assert w1.log == [Sent(at, true, false)] && !w1.separated && w1.entry.pending.Some?;
  }

  /** The full cooldown itself is not kept: whenever the first firing falls inside a second, the next one may
      come that fraction early. */
  lemma CooldownCutShort(key: string, cooldown: int, at: Time)
    requires key != HEARTBEAT_KEY && cooldown > 0 && at % SECOND != 0
    ensures var ts := [Tick(Alarm(key, cooldown), at, Delivered),
                       Tick(Alarm(key, cooldown), Truncated(at) + cooldown * SECOND, Delivered)];
      && Proper(ts, at, cooldown)
      && var log := Watched(ts, at).log;
         |log| == 2 && !log[1].separated && log[0].recorded && log[1].at - log[0].at < cooldown * SECOND
  {
    var t0 := Tick(Alarm(key, cooldown), at, Delivered);
    var t1 := Tick(Alarm(key, cooldown), Truncated(at) + cooldown * SECOND, Delivered);
    WatchedTwo(t0, t1, at);
    var w1 := Observe(Watched([], at), t0);
    assert w1.log == [Sent(at, true, true)] && !w1.separated && w1.entry.notified && w1.entry.lastSentAt == Some(Truncated(at));
    assert w1.entry.activeSince == Some(Truncated(at)) && w1.entry.lastSeverity == Some(Critical) && w1.entry.pending == None;
  }

  /** Nor is it kept under a clock that goes back: a firing due after the cooldown that could not be sent is sent at the
      next tick, whatever time that has. */
  lemma ClockSetBackResends(key: string, cooldown: int, at: Time, back: Time)
    requires key != HEARTBEAT_KEY && cooldown > 0
    ensures var due := Truncated(at) + cooldown * SECOND;
      var ts := [Tick(Alarm(key, cooldown), at, Delivered), Tick(Alarm(key, cooldown), due, Failed),
                 Tick(Alarm(key, cooldown), back, Delivered)];
      OfOneRule(ts) && Watched(ts, at).log == [Sent(at, true, true), Sent(back, false, true)]
  {
    var due := Truncated(at) + cooldown * SECOND;
    var t0, t1 := Tick(Alarm(key, cooldown), at, Delivered), Tick(Alarm(key, cooldown), due, Failed);
    var t2 := Tick(Alarm(key, cooldown), back, Delivered);
    WatchedTwo(t0, t1, at);
    assert [t0, t1, t2][..2] == [t0, t1];
    var w1 := Observe(Watched([], at), t0);
    assert w1.log == [Sent(at, true, true)] && !w1.separated && w1.entry.notified && w1.entry.lastSentAt == Some(Truncated(at));
    assert w1.entry.activeSince == Some(Truncated(at)) && w1.entry.lastSeverity == Some(Critical) && w1.entry.pending == None;
    var w2 := Observe(w1, t1);
    assert w2.log == w1.log && !w2.separated && w2.entry.pending.Some? && w2.entry.pending.value.kind == Firing;
    assert w2.entry.activeSince == w1.entry.activeSince && w2.entry.lastSeverity == Some(Critical);
  }

  // ----- nothing pending is lost

  ghost predicate SameCondition(e: Entry, p: Pending, t: Tick) {
    if p.kind == Firing then t.result.active && Some(t.result.severity) == e.lastSeverity else !t.result.active
  }

  /** From a state with something pending: while the condition and severity stay and nothing is confirmed,
      every tick emits exactly that. */
  lemma {:induction false} PendingIsReemitted(e: Entry, p: Pending, ts: seq<Tick>, i: nat)
    requires e.pending == Some(p) && i < |ts|
    requires p.kind == Firing ==> e.activeSince.Some?
    requires forall j | 0 <= j < |ts| :: SameCondition(e, p, ts[j]) && ts[j].outcome != Delivered
    ensures Emits(Entries(e, ts[..i]), ts[i]) == Some(EventOf(ts[i].result.key, p))
    ensures p.kind == Firing ==> Entries(e, ts[..i]).activeSince == e.activeSince
    ensures Entries(e, ts[..i]).pending == Some(p) && (p.kind == Firing ==> Entries(e, ts[..i]).lastSeverity == e.lastSeverity)
  {
    if i > 0 {
      PendingIsReemitted(e, p, ts, i - 1);
      assert ts[..i][..i - 1] == ts[..i - 1];
    }
  }

  function Entries(e: Entry, ts: seq<Tick>): Entry {
    if ts == [] then e else AfterTick(Entries(e, ts[..|ts| - 1]), ts[|ts| - 1])
  }

  // ----- restart rules

  datatype RestartTick = RestartTick(current: Option<int>, now: Time, outcome: Outcome)

  function RestartRule(key: string, message: string, e: Entry, t: RestartTick): Tick {
    Tick(RestartResult(key, message, e, t.current), t.now, t.outcome)
  }

  function AfterRestartTick(key: string, message: string, e: Entry, t: RestartTick): Entry {
    AfterTick(e, RestartRule(key, message, e, t))
  }

  function RestartEntries(key: string, message: string, e: Entry, ts: seq<RestartTick>): Entry {
    if ts == [] then e
    else AfterRestartTick(key, message, RestartEntries(key, message, e, ts[..|ts| - 1]), ts[|ts| - 1])
  }

  predicate Increase(e: Entry, t: RestartTick) {
    t.current.Some? && e.lastValue.Number? && t.current.value > e.lastValue.n
  }

  predicate NotifiedOpen(e: Entry) {
    e.activeSince.Some? && e.notified
  }

  /** Undelivered and therefore kept active. */
  predicate WaitingForDelivery(e: Entry) {
    e.activeSince.Some? && !e.notified
  }

  /** Entries a restart rule can have: only firings pending, one severity. */
  ghost predicate RestartInv(e: Entry) {
    && (e.activeSince.Some? ==> e.lastSeverity == Some(Warning))
    && (e.pending.Some? ==> e.pending.value.kind == Firing && e.activeSince.Some?)
    && (e.notified ==> e.activeSince.Some?)
  }

  lemma RestartTickKeepsInv(key: string, message: string, e: Entry, t: RestartTick)
    requires RestartInv(e) && key != HEARTBEAT_KEY
    ensures RestartInv(AfterRestartTick(key, message, e, t))
    ensures var event := Emits(e, RestartRule(key, message, e, t)); event.Some? ==> event.value.kind == Firing
  {
  }

  /** Seen from a reachable entry, an increase not delivered at once is kept exactly when no notified episode is open. */
  lemma IncreaseIsKeptIff(key: string, message: string, e: Entry, t: RestartTick)
    requires RestartInv(e) && key != HEARTBEAT_KEY && Increase(e, t) && t.outcome != Delivered
    ensures WaitingForDelivery(AfterRestartTick(key, message, e, t)) <==> !NotifiedOpen(e)
  {
  }

  /** While waiting, every tick keeps the rule active, emits a firing as soon as the cooldown allows, and never a resolution. */
  lemma WaitingTick(key: string, message: string, e: Entry, t: RestartTick)
    requires RestartInv(e) && key != HEARTBEAT_KEY && WaitingForDelivery(e) && t.now >= e.activeSince.value
    ensures var tick := RestartRule(key, message, e, t);
      && tick.result.active
      && (Emits(e, tick).Some? <==>
            e.pending.Some? || e.lastSentAt == None || t.now - e.lastSentAt.value >= DEFAULT_COOLDOWN_SECONDS * SECOND)
      && (if DeliversFiring(e, tick) then NotifiedOpen(AfterTick(e, tick)) else WaitingForDelivery(AfterTick(e, tick)))
  {
  }

  /** No tick of `ts`, run from `e`, delivers a firing. */
  predicate Undelivered(key: string, message: string, e: Entry, ts: seq<RestartTick>) {
    ts == [] ||
    var before := RestartEntries(key, message, e, ts[..|ts| - 1]);
    Undelivered(key, message, e, ts[..|ts| - 1]) && !DeliversFiring(before, RestartRule(key, message, before, ts[|ts| - 1]))
  }

  /** No silent restart: over any later ticks, whatever the counter and the clock say and however many deliveries fail
      or go unrecorded, the rule stays active until a firing has been delivered. */
  lemma {:induction false} NoSilentRestart(key: string, message: string, e: Entry, ts: seq<RestartTick>, next: RestartTick)
    requires RestartInv(e) && key != HEARTBEAT_KEY && WaitingForDelivery(e) && Undelivered(key, message, e, ts)
    ensures var now := RestartEntries(key, message, e, ts);
      && WaitingForDelivery(now) && RestartInv(now) && now.activeSince == e.activeSince
      && RestartRule(key, message, now, next).result.active
  {
    if ts != [] {
      var last := ts[|ts| - 1];
      NoSilentRestart(key, message, e, ts[..|ts| - 1], last);
      WaitingStays(key, message, RestartEntries(key, message, e, ts[..|ts| - 1]), last);
    }
  }

  lemma WaitingStays(key: string, message: string, e: Entry, t: RestartTick)
    requires RestartInv(e) && key != HEARTBEAT_KEY && WaitingForDelivery(e)
    requires !DeliversFiring(e, RestartRule(key, message, e, t))
    ensures var e' := AfterRestartTick(key, message, e, t);
      WaitingForDelivery(e') && RestartInv(e') && e'.activeSince == e.activeSince
  {
    RestartTickKeepsInv(key, message, e, t);
  }

  /** The excluded family fails: with a notified episode still open and the cooldown running, the increase is
      forgotten at the next tick without one, and nothing is ever emitted for it. */
  lemma IncreaseDropped(key: string, message: string, e: Entry, t: RestartTick, next: RestartTick)
    requires RestartInv(e) && key != HEARTBEAT_KEY && NotifiedOpen(e) && e.pending == None && Increase(e, t)
    requires e.lastSentAt.Some? && t.now - e.lastSentAt.value < 3 * 3_600 * SECOND
    requires next.current == t.current
    ensures var after := AfterRestartTick(key, message, e, t);
      && Emits(e, RestartRule(key, message, e, t)) == None
      && Emits(after, RestartRule(key, message, after, next)) == None
      && AfterRestartTick(key, message, after, next).activeSince == None
  {
  }

  // ----- the heartbeat

  datatype Beat = Beat(unhealthy: bool, now: Time, outcome: Outcome)

  datatype Pulse = Pulse(at: Time, recorded: bool)

  datatype Heart = Heart(entry: Entry, sent: seq<Pulse>)

  function ObserveBeat(h: Heart, b: Beat): Heart {
    var (stepped, event) := StepHeartbeat(h.entry, b.unhealthy, b.now);
    var entry := Recorded(stepped, event, b.now, b.outcome);
    Heart(entry, if event.Some? && b.outcome != Failed then h.sent + [Pulse(b.now, b.outcome == Delivered)] else h.sent)
  }

  function Beats(bs: seq<Beat>): Heart {
    if bs == [] then Heart(EMPTY_ENTRY, []) else ObserveBeat(Beats(bs[..|bs| - 1]), bs[|bs| - 1])
  }

  /** The date the state knows is the one of the last recorded pulse. */
  function LastRecorded(sent: seq<Pulse>): LastValue {
    if sent == [] then NoValue
    else if sent[|sent| - 1].recorded then Date(DateOf(sent[|sent| - 1].at))
    else LastRecorded(sent[..|sent| - 1])
  }

  /** Between two pulses of one date: the first was not recorded, or another date was recorded in between. */
  ghost predicate Explained(sent: seq<Pulse>, i: nat, j: nat)
    requires i < j <= |sent|
  {
    !sent[i].recorded || exists k :: i < k < j && sent[k].recorded && DateOf(sent[k].at) != DateOf(sent[i].at)
  }

  ghost predicate HeartInv(h: Heart) {
    && h.entry.lastValue == LastRecorded(h.sent)
    && (h.entry.pending.Some? ==> h.entry.pending.value.kind == Firing)
    && forall i: nat, j: nat | i < j < |h.sent| && DateOf(h.sent[i].at) == DateOf(h.sent[j].at) :: Explained(h.sent, i, j)
  }

  /** If the last recorded date is not that of pulse `i`, either `i` was not recorded or a later one of another date was. */
  lemma {:induction false} NotTheLastRecorded(sent: seq<Pulse>, i: nat)
    requires i < |sent| && LastRecorded(sent) != Date(DateOf(sent[i].at))
    ensures Explained(sent, i, |sent|)
  {
    var n := |sent| - 1;
    if i < n && !sent[n].recorded {
      NotTheLastRecorded(sent[..n], i);
      if sent[i].recorded {
        var k :| i < k < n && sent[..n][k].recorded && DateOf(sent[..n][k].at) != DateOf(sent[..n][i].at);
        assert sent[k].recorded && DateOf(sent[k].at) != DateOf(sent[i].at);
      }
    }
  }

  lemma BeatKeepsInv(h: Heart, b: Beat)
    requires HeartInv(h)
    ensures HeartInv(ObserveBeat(h, b))
  {
    var h' := ObserveBeat(h, b);
    var n := |h.sent|;
    if |h'.sent| > n {
      assert h'.sent[..n] == h.sent;
      forall i: nat, j: nat | i < j < |h'.sent| && DateOf(h'.sent[i].at) == DateOf(h'.sent[j].at)
        ensures Explained(h'.sent, i, j)
      {
        if j == n {
          NotTheLastRecorded(h.sent, i);
        } else {
          assert Explained(h.sent, i, j);
        }
        if h'.sent[i].recorded {
          var k :| i < k < j && h.sent[k].recorded && DateOf(h.sent[k].at) != DateOf(h.sent[i].at);
          assert h'.sent[k].recorded && DateOf(h'.sent[k].at) != DateOf(h'.sent[i].at);
        }
      }
    }
  }

  /** For any clock, any failures and any crashes: a heartbeat is sent twice on one date only if the recording of the
      first was lost, or the clock left that date and another date was recorded in between. */
  lemma {:induction false} RepeatedHeartbeatIsExplained(bs: seq<Beat>, i: nat, j: nat)
    requires var sent := Beats(bs).sent; i < j < |sent| && DateOf(sent[i].at) == DateOf(sent[j].at)
    ensures Explained(Beats(bs).sent, i, j)
  {
    BeatsKeepInv(bs);
  }

  lemma {:induction false} BeatsKeepInv(bs: seq<Beat>)
    ensures HeartInv(Beats(bs))
  {
    if bs != [] {
      BeatsKeepInv(bs[..|bs| - 1]);
      BeatKeepsInv(Beats(bs[..|bs| - 1]), bs[|bs| - 1]);
    }
  }

  ghost predicate PulsesUntil(sent: seq<Pulse>, until: Time) {
    && (forall i | 0 <= i < |sent| :: sent[i].at <= until)
    && (forall i, j | 0 <= i < j < |sent| :: sent[i].at <= sent[j].at)
  }

  lemma {:induction false} PulsesInTime(bs: seq<Beat>, until: Time)
    requires forall i, j | 0 <= i < j < |bs| :: bs[i].now <= bs[j].now
    requires forall i | 0 <= i < |bs| :: bs[i].now <= until
    ensures PulsesUntil(Beats(bs).sent, until)
  {
    if bs != [] {
      PulsesInTime(bs[..|bs| - 1], bs[|bs| - 1].now);
    }
  }

  lemma DatesAreMonotone(a: Time, b: Time)
    requires a <= b
    ensures DateOf(a) <= DateOf(b)
  {
  }

  /** With a clock that does not go back, at most one heartbeat is sent per UTC date, unless the recording of the
      earlier one was lost. */
  lemma OneHeartbeatPerDate(bs: seq<Beat>, i: nat, j: nat)
    requires forall x, y | 0 <= x < y < |bs| :: bs[x].now <= bs[y].now
    requires var sent := Beats(bs).sent; i < j < |sent| && sent[i].recorded
    ensures var sent := Beats(bs).sent; DateOf(sent[i].at) < DateOf(sent[j].at)
  {
    var sent := Beats(bs).sent;
    PulsesInTime(bs, bs[|bs| - 1].now);
    DatesAreMonotone(sent[i].at, sent[j].at);
    if DateOf(sent[i].at) == DateOf(sent[j].at) {
      RepeatedHeartbeatIsExplained(bs, i, j);
      var k :| i < k < j && sent[k].recorded && DateOf(sent[k].at) != DateOf(sent[i].at);
      DatesAreMonotone(sent[i].at, sent[k].at);
      DatesAreMonotone(sent[k].at, sent[j].at);
    }
  }

  lemma BeatsTwo(a: Beat, b: Beat)
    ensures Beats([a, b]) == ObserveBeat(ObserveBeat(Heart(EMPTY_ENTRY, []), a), b)
  {
    assert [a, b][..1] == [a] && [a][..0] == [];
    assert Beats([a]) == ObserveBeat(Beats([]), a);
  }

  /** A crash between sending and saving does send the heartbeat of that date again. */
  lemma LostHeartbeatRepeats(at: Time, later: Time)
    requires at <= later && DateOf(at) == DateOf(later)
    ensures Beats([Beat(false, at, Unrecorded), Beat(false, later, Delivered)]).sent == [Pulse(at, false), Pulse(later, true)]
  {
    BeatsTwo(Beat(false, at, Unrecorded), Beat(false, later, Delivered));
    assert ObserveBeat(Heart(EMPTY_ENTRY, []), Beat(false, at, Unrecorded)).sent == [Pulse(at, false)];
  }

  /** So does a clock set back to the day before, once the heartbeat of that day has been recorded. */
  lemma ClockSetBackRepeats(at: Time)
    ensures var h := Beats([Beat(false, at, Delivered), Beat(false, at - DAY, Delivered)]);
      ObserveBeat(h, Beat(false, at, Delivered)).sent == [Pulse(at, true), Pulse(at - DAY, true), Pulse(at, true)]
  {
    BeatsTwo(Beat(false, at, Delivered), Beat(false, at - DAY, Delivered));
    assert DateOf(at - DAY) == DateOf(at) - 1;
    var h1 := ObserveBeat(Heart(EMPTY_ENTRY, []), Beat(false, at, Delivered));
    assert h1.sent == [Pulse(at, true)] && h1.entry.lastValue == Date(DateOf(at)) && h1.entry.pending == None;
    var h2 := ObserveBeat(h1, Beat(false, at - DAY, Delivered));
    assert h2.sent == [Pulse(at, true), Pulse(at - DAY, true)] && h2.entry.lastValue == Date(DateOf(at) - 1);
    assert h2.entry.pending == None;
  }
}
