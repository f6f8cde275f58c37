/** Which ticks announce what: episodes, severity changes, repeats, resolutions and the daily heartbeat. */
module AlertTiming {
  import opened Base
  import opened AlertPolicy
  import opened AlertRuns

  predicate CooldownOver(e: Entry, r: RuleResult, now: Time) {
    e.lastSentAt.None? || now - e.lastSentAt.value >= r.cooldown * 1_000_000
  }

  function FiringOf(r: RuleResult): AlertEvent {
    AlertEvent(r.key, r.severity, r.message, Firing)
  }

  /** A new condition is announced at its first tick exactly when it need not persist, and its rule resolves or the
      cooldown is over; in any case the episode starts then. */
  lemma NewIsAnnouncedIff(e: Entry, r: RuleResult, now: Time)
    requires r.active && e.activeSince.None?
    ensures var (after, event) := StepEntry(e, r, now);
      && (event.Some? <==> r.persistFor <= 0 && (r.resolutionEnabled || CooldownOver(e, r, now)))
      && (event.Some? ==> event.value == FiringOf(r))
      && after.activeSince == Some(Truncated(now)) && after.lastSeverity == Some(r.severity) && !after.notified
  {
    assert 0 <= now - Truncated(now) < 1_000_000;
  }

  /** A changed severity is announced at once, cooldown or not, exactly when the rule need not persist. */
  lemma ChangeIsAnnouncedIff(e: Entry, r: RuleResult, now: Time)
    requires r.active && e.activeSince.Some? && e.lastSeverity != Some(r.severity)
    ensures var (after, event) := StepEntry(e, r, now);
      && (event.Some? <==> r.persistFor <= 0)
      && (event.Some? ==> event.value == FiringOf(r))
      && after.activeSince == Some(Truncated(now)) && after.lastSeverity == Some(r.severity) && !after.notified
  {
    assert 0 <= now - Truncated(now) < 1_000_000;
  }

  /** The same condition is announced exactly when it has persisted and the cooldown is over, or a firing is pending. */
  lemma SameIsAnnouncedIff(e: Entry, r: RuleResult, now: Time)
    requires r.active && e.activeSince.Some? && e.lastSeverity == Some(r.severity)
    ensures var (after, event) := StepEntry(e, r, now);
      && (event.Some? <==>
            || (e.pending.Some? && e.pending.value.kind == Firing)
            || (now - e.activeSince.value >= r.persistFor * 1_000_000 && CooldownOver(e, r, now)))
      && (event.Some? ==> event.value == if e.pending.Some? && e.pending.value.kind == Firing
                                         then AlertEvent(r.key, e.pending.value.severity, e.pending.value.message, Firing)
                                         else FiringOf(r))
      && after.activeSince == e.activeSince && after.notified == e.notified && after.lastMessage == Some(r.message)
  {
  }

  /** The end of a condition is announced exactly when a firing of it was delivered and the rule resolves, or a
      resolution is pending; the episode is over in any case. */
  lemma EndIsAnnouncedIff(e: Entry, r: RuleResult, now: Time)
    requires !r.active
    ensures var (after, event) := StepEntry(e, r, now);
      && (event.Some? <==>
            || (e.pending.Some? && e.pending.value.kind == Resolved)
            || (e.activeSince.Some? && e.notified && r.resolutionEnabled))
      && (event.Some? ==> event.value.kind == Resolved && event.value.key == r.key)
      && (event.Some? && (e.pending == None || e.pending.value.kind == Firing) && e.lastSeverity.Some?
          && e.lastMessage.Some? && e.lastMessage.value != "" ==>
            event.value.severity == e.lastSeverity.value && event.value.message == "Resolved: " + e.lastMessage.value)
      && (event.None? ==> after.pending == None)
      && after.activeSince == None && !after.notified
  {
  }

  // ----- a condition that must persist

  /** Ticks of one condition whose rule wants it to last `persist` seconds. */
  ghost predicate Lasting(ts: seq<Tick>, severity: Severity, persist: int, cooldown: int) {
    forall i | 0 <= i < |ts| ::
      var r := ts[i].result;
      r.active && r.severity == severity && r.persistFor == persist && r.cooldown == cooldown && r.key != HEARTBEAT_KEY
  }

  /** A new condition, or a new severity of it. */
  predicate Starts(e: Entry, severity: Severity) {
    e.activeSince.None? || e.lastSeverity != Some(severity)
  }

  /** Nothing is announced at tick `j`. */
  predicate SilentAt(e: Entry, ts: seq<Tick>, j: nat)
    requires j < |ts|
  {
    Emits(Entries(e, ts[..j]), ts[j]).None?
  }

  lemma SilentTick(e: Entry, t: Tick)
    requires t.result.active && Emits(e, t).None?
    ensures var after := AfterTick(e, t);
      && after.activeSince == (if Starts(e, t.result.severity) then Some(Truncated(t.now)) else e.activeSince)
      && after.lastSeverity == Some(t.result.severity) && after.lastSentAt == e.lastSentAt
      && (Starts(e, t.result.severity) || e.pending == None ==> after.pending == None)
  {
  }

  lemma {:induction false} WhileSilent(e: Entry, ts: seq<Tick>, severity: Severity, persist: int, cooldown: int, i: nat)
    requires Lasting(ts, severity, persist, cooldown) && persist > 0 && Starts(e, severity) && i <= |ts|
    requires forall j | 0 <= j < i :: SilentAt(e, ts, j)
    ensures var now := Entries(e, ts[..i]); i > 0 ==>
      && now.activeSince == Some(Truncated(ts[0].now)) && now.lastSeverity == Some(severity)
      && now.lastSentAt == e.lastSentAt && now.pending == None
  {
    if i > 0 {
      var t := ts[i - 1];
      WhileSilent(e, ts, severity, persist, cooldown, i - 1);
      assert ts[..i][..i - 1] == ts[..i - 1] && SilentAt(e, ts, i - 1);
      assert i == 1 ==> ts[..0] == [];
      assert Entries(e, ts[..i]) == AfterTick(Entries(e, ts[..i - 1]), t);
      SilentTick(Entries(e, ts[..i - 1]), t);
    }
  }

  /**
    The first announcement of a condition that must persist, new or of another severity: it comes at the first tick by
    which the condition has lasted long enough and the cooldown since whatever was sent last is over.
  */
  lemma LastingIsAnnouncedIff(e: Entry, ts: seq<Tick>, severity: Severity, persist: int, cooldown: int, i: nat)
    requires Lasting(ts, severity, persist, cooldown) && persist > 0 && Starts(e, severity) && i < |ts|
    requires forall j | 0 <= j < i :: SilentAt(e, ts, j)
    ensures !SilentAt(e, ts, i) <==>
      && i > 0 && ts[i].now - Truncated(ts[0].now) >= persist * SECOND
      && (e.lastSentAt.None? || ts[i].now - e.lastSentAt.value >= cooldown * SECOND)
  {
    WhileSilent(e, ts, severity, persist, cooldown, i);
    if i == 0 {
      assert ts[..0] == [];
      if e.activeSince.None? {
        NewIsAnnouncedIff(e, ts[0].result, ts[0].now);
      } else {
        ChangeIsAnnouncedIff(e, ts[0].result, ts[0].now);
      }
    } else {
      SameIsAnnouncedIff(Entries(e, ts[..i]), ts[i].result, ts[i].now);
    }
  }

  /** So within the cooldown of what was sent last nothing of it is announced, however long it lasts. */
  lemma {:induction false} LastingIsHeldBack(e: Entry, ts: seq<Tick>, severity: Severity, persist: int, cooldown: int, n: nat)
    requires Lasting(ts, severity, persist, cooldown) && persist > 0 && Starts(e, severity) && n <= |ts|
    requires e.lastSentAt.Some?
    requires forall j | 0 <= j < |ts| :: ts[j].now - e.lastSentAt.value < cooldown * SECOND
    ensures forall j | 0 <= j < n :: SilentAt(e, ts, j)
  {
    if n > 0 {
      LastingIsHeldBack(e, ts, severity, persist, cooldown, n - 1);
      LastingIsAnnouncedIff(e, ts, severity, persist, cooldown, n - 1);
    }
  }

  /** The rule for available memory below 15 and below 8 percent. */
  function MemoryRule(severity: Severity, message: string): RuleResult {
    RuleResult("host.memory.available", severity, true, if severity == Critical then 300 else 900, 10_800, message, NoValue, true)
  }

  /** The severity change that is not announced: memory is low for a quarter of an hour, the warning is delivered, and
      then it is critical for as long as the ticks go on, up to three hours after the warning. */
  lemma CriticalMemoryIsHeldBack(low: string, critical: string, at: Time, sent: Time, ts: seq<Tick>)
    requires sent >= at + 900 * SECOND
    requires forall j | 0 <= j < |ts| :: ts[j].result == MemoryRule(Critical, critical) && ts[j].now < Truncated(sent) + 3 * 3_600 * SECOND
    ensures var first := AfterTick(EMPTY_ENTRY, Tick(MemoryRule(Warning, low), at, Delivered));
      var second := Tick(MemoryRule(Warning, low), sent, Delivered);
      var warned := AfterTick(first, second);
      && Emits(first, second) == Some(FiringOf(second.result))
      && forall j | 0 <= j < |ts| :: SilentAt(warned, ts, j)
  {
    var t0, t1 := Tick(MemoryRule(Warning, low), at, Delivered), Tick(MemoryRule(Warning, low), sent, Delivered);
    NewIsAnnouncedIff(EMPTY_ENTRY, t0.result, at);
    var first := AfterTick(EMPTY_ENTRY, t0);
    assert first.pending == None && first.lastSentAt == None && first.activeSince == Some(Truncated(at));
    SameIsAnnouncedIff(first, t1.result, sent);
    var warned := AfterTick(first, t1);
    assert warned.lastSentAt == Some(Truncated(sent)) && warned.lastSeverity == Some(Warning);
    LastingIsHeldBack(warned, ts, Critical, 300, 10_800, |ts|);
  }

  // ----- the heartbeat

  /** What the heartbeat says; an unhealthy tick says nothing and drops one still pending. */
  lemma BeatSays(e: Entry, unhealthy: bool, now: Time)
    ensures var (after, event) := StepHeartbeat(e, unhealthy, now);
      && (unhealthy ==> event == None && after == e.(pending := None))
      && (event.Some? && e.pending == None ==>
            event.value == AlertEvent("healthy-heartbeat", Info, "JurisTrack resource monitoring is healthy", Firing)
            && after.pending == Some(Pending(Firing, Info, event.value.message)) && after.activeSince == Some(Truncated(now)))
      && (event.Some? && e.pending.Some? ==>
            event.value == AlertEvent("healthy-heartbeat", e.pending.value.severity, e.pending.value.message, e.pending.value.kind) && after == e)
  {
  }

  /** A healthy tick sends the heartbeat exactly when none is recorded for its date; an unhealthy one sends none. */
  lemma BeatIsSentIff(bs: seq<Beat>, b: Beat)
    ensures var before, after := Beats(bs).sent, Beats(bs + [b]).sent;
      && (after != before <==> !b.unhealthy && b.outcome != Failed && LastRecorded(before) != Date(b.now / 86_400_000_000))
      && (after != before ==> after == before + [Pulse(b.now, b.outcome == Delivered)])
  {
    BeatsKeepInv(bs);
    assert (bs + [b])[..|bs|] == bs;
  }

  // ----- restart counters

  /** A counter that cannot be read is forgotten: whatever it is the next time counts as no increase. */
  lemma UnreadCounterIsForgotten(key: string, message: string, e: Entry, t: RestartTick, next: RestartTick)
    requires t.current == None && e.activeSince == None && e.pending == None && !e.notified && key != HEARTBEAT_KEY
    ensures var after := AfterRestartTick(key, message, e, t);
      after.lastValue == NoValue && Emits(after, RestartRule(key, message, after, next)) == None
  {
  }
}
