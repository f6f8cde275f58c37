/** Alert transitions: one persistent entry per rule, advanced once per tick, and the daily heartbeat. */
module AlertPolicy {
  import opened Base

  type Time = int // microseconds, UTC

  const SECOND := 1_000_000
  const DAY := 86_400 * SECOND
  const DEFAULT_COOLDOWN_SECONDS := 3 * 60 * 60

  /** Times are stored with second precision. */
  function Truncated(t: Time): Time {
    t / SECOND * SECOND
  }

  function DateOf(t: Time): int {
    t / DAY
  }

  datatype Severity = Info | Warning | Critical

  datatype Kind = Firing | Resolved

  datatype AlertEvent = AlertEvent(key: string, severity: Severity, message: string, kind: Kind)

  datatype Pending = Pending(kind: Kind, severity: Severity, message: string)

  datatype LastValue = NoValue | Number(n: int) | Date(day: int)

  datatype RuleResult = RuleResult(
    key: string, severity: Severity, active: bool, persistFor: int, cooldown: int,
    message: string, value: LastValue, resolutionEnabled: bool)

  datatype Entry = Entry(
    activeSince: Option<Time>, lastSentAt: Option<Time>, lastValue: LastValue, lastSeverity: Option<Severity>,
    lastMessage: Option<string>, notified: bool, pending: Option<Pending>, deliveryError: bool)

  const EMPTY_ENTRY := Entry(None, None, NoValue, None, None, false, None, false)

  function EventOf(key: string, p: Pending): AlertEvent {
    AlertEvent(key, p.severity, p.message, p.kind)
  }

  function PendingOf(e: AlertEvent): Pending {
    Pending(e.kind, e.severity, e.message)
  }

  // ----- one entry, one result

  function Opened(e: Entry, r: RuleResult, now: Time): Entry {
    if e.activeSince == None || e.lastSeverity != Some(r.severity) then
      e.(activeSince := Some(Truncated(now)), lastSeverity := Some(r.severity), lastMessage := Some(r.message),
         notified := false, pending := None)
    else e.(lastMessage := Some(r.message))
  }

  function StepActive(e: Entry, r: RuleResult, now: Time): (Entry, Option<AlertEvent>) {
    var newEpisode := e.activeSince == None;
    var severityChanged := !newEpisode && e.lastSeverity != Some(r.severity);
    var o := Opened(e, r, now);
    if o.pending.Some? && o.pending.value.kind == Firing then (o, Some(EventOf(r.key, o.pending.value)))
    else
      var persisted := now - o.activeSince.value >= r.persistFor * SECOND;
      var cooldownDue := o.lastSentAt == None || now - o.lastSentAt.value >= r.cooldown * SECOND;
      var shouldSend := persisted
        && if o.notified then cooldownDue
           else (newEpisode && r.resolutionEnabled) || cooldownDue || severityChanged;
      if shouldSend then
        var event := AlertEvent(r.key, r.severity, r.message, Firing);
        (o.(pending := Some(PendingOf(event))), Some(event))
      else (o, None)
  }

  function StepInactive(e: Entry, r: RuleResult): (Entry, Option<AlertEvent>) {
    var closed := e.(activeSince := None, lastSeverity := None, notified := false);
    if e.pending.Some? && e.pending.value.kind == Resolved then (closed, Some(EventOf(r.key, e.pending.value)))
    else if e.activeSince.Some? && e.notified && r.resolutionEnabled then
      var severity := if e.lastSeverity.Some? then e.lastSeverity.value else r.severity;
      var text := if e.lastMessage.Some? && e.lastMessage.value != "" then e.lastMessage.value else r.message;
      var event := AlertEvent(r.key, severity, "Resolved: " + text, Resolved);
      (closed.(pending := Some(PendingOf(event))), Some(event))
    else (closed.(pending := None), None)
  }

  function StepEntry(e: Entry, r: RuleResult, now: Time): (Entry, Option<AlertEvent>) {
    var seen := e.(lastValue := r.value);
    if r.active then StepActive(seen, r, now) else StepInactive(seen, r)
  }

  // ----- the heartbeat

  const HEARTBEAT_KEY := "healthy-heartbeat"
  const HEARTBEAT := AlertEvent(HEARTBEAT_KEY, Info, "JurisTrack resource monitoring is healthy", Firing)

  function StepHeartbeat(e: Entry, unhealthy: bool, now: Time): (Entry, Option<AlertEvent>) {
    if unhealthy then (e.(pending := None), None)
    else if e.lastValue == Date(DateOf(now)) then (e, None)
    else if e.pending.Some? then (e, Some(EventOf(HEARTBEAT_KEY, e.pending.value)))
    else (e.(activeSince := Some(Truncated(now)), lastSeverity := Some(Info), lastMessage := Some(HEARTBEAT.message),
             pending := Some(PendingOf(HEARTBEAT))), Some(HEARTBEAT))
  }

  // ----- recording a delivery

  function RecordSuccess(e: Entry, event: AlertEvent, now: Time): Entry {
    var sent := e.(lastSentAt := Some(Truncated(now)), deliveryError := false, pending := None);
    if event.key == HEARTBEAT_KEY then
      sent.(lastValue := Date(DateOf(now)), activeSince := None, lastSeverity := None, notified := false)
    else if event.kind == Firing then sent.(notified := true)
    else sent
  }

  function RecordFailure(e: Entry): Entry {
    e.(deliveryError := true)
  }

  // ----- the whole state

  function EntryOf(rules: map<string, Entry>, key: string): Entry {
    if key in rules then rules[key] else EMPTY_ENTRY
  }

  function Advanced(results: seq<RuleResult>, rules: map<string, Entry>, now: Time): (map<string, Entry>, seq<AlertEvent>) {
    if results == [] then (rules, [])
    else
      var (before, events) := Advanced(results[..|results| - 1], rules, now);
      var r := results[|results| - 1];
      var (entry, event) := StepEntry(EntryOf(before, r.key), r, now);
      (before[r.key := entry], if event.Some? then events + [event.value] else events)
  }

  predicate Unhealthy(results: seq<RuleResult>) {
    exists r | r in results :: r.active
  }

  method AdvanceState(results: seq<RuleResult>, rules: map<string, Entry>, now: Time)
    returns (events: seq<AlertEvent>, candidate: map<string, Entry>)
    ensures
      var (stepped, fired) := Advanced(results, rules, now);
      var (heartbeat, beat) := StepHeartbeat(EntryOf(stepped, HEARTBEAT_KEY), Unhealthy(results), now);
      && candidate == stepped[HEARTBEAT_KEY := heartbeat]
      && events == if beat.Some? then fired + [beat.value] else fired
    ensures (exists r | r in results :: r.active) ==> events == Advanced(results, rules, now).1
    ensures (forall r | r in results :: !r.active) && EntryOf(Advanced(results, rules, now).0, HEARTBEAT_KEY).lastValue != Date(DateOf(now)) ==>
      |events| == |Advanced(results, rules, now).1| + 1
  {
    candidate, events := rules, [];
    var unhealthy := false;
    for i := 0 to |results|
      invariant (candidate, events) == Advanced(results[..i], rules, now)
      invariant unhealthy == Unhealthy(results[..i])
    {
      var r := results[i];
      assert results[..i + 1][..i] == results[..i] && results[..i + 1] == results[..i] + [r];
      var entry, event := AdvanceEntry(EntryOf(candidate, r.key), r, now);
      candidate := candidate[r.key := entry];
      if event.Some? {
        events := events + [event.value];
      }
      unhealthy := unhealthy || r.active;
    }
    assert results[..|results|] == results;
    var (heartbeat, beat) := StepHeartbeat(EntryOf(candidate, HEARTBEAT_KEY), unhealthy, now);
    candidate := candidate[HEARTBEAT_KEY := heartbeat];
    if beat.Some? {
      events := events + [beat.value];
    }
  }

  /** The body of the loop, which rewrites the entry field by field. */
  method AdvanceEntry(before: Entry, r: RuleResult, now: Time) returns (entry: Entry, event: Option<AlertEvent>)
    ensures (entry, event) == StepEntry(before, r, now)
  {
    entry, event := before, None;
    var wasActive := entry.activeSince.Some?;
    var previousSeverity := entry.lastSeverity;
    entry := entry.(lastValue := r.value);
    if r.active {
      var newEpisode := !wasActive;
      var severityChanged := wasActive && previousSeverity != Some(r.severity);
      if !wasActive || severityChanged {
        entry := entry.(activeSince := Some(Truncated(now)), lastSeverity := Some(r.severity));
        entry := entry.(lastMessage := Some(r.message), notified := false, pending := None);
      } else {
        entry := entry.(lastMessage := Some(r.message));
      }
      var persisted := now - entry.activeSince.value >= r.persistFor * SECOND;
      if entry.pending.Some? && entry.pending.value.kind == Firing {
        return entry, Some(EventOf(r.key, entry.pending.value));
      }
      var cooldownDue := entry.lastSentAt == None || now - entry.lastSentAt.value >= r.cooldown * SECOND;
      var shouldSend := persisted
        && ((!entry.notified && ((newEpisode && r.resolutionEnabled) || cooldownDue || severityChanged))
            || (entry.notified && cooldownDue));
      if shouldSend {
        event := Some(AlertEvent(r.key, r.severity, r.message, Firing));
        entry := entry.(pending := Some(PendingOf(event.value)));
      }
      return;
    }
    if entry.pending.Some? && entry.pending.value.kind == Resolved {
      event := Some(EventOf(r.key, entry.pending.value));
    } else if wasActive && entry.notified && r.resolutionEnabled {
      var severity := if previousSeverity.Some? then previousSeverity.value else r.severity;
      var text := if entry.lastMessage.Some? && entry.lastMessage.value != "" then entry.lastMessage.value else r.message;
      event := Some(AlertEvent(r.key, severity, "Resolved: " + text, Resolved));
      entry := entry.(pending := Some(PendingOf(event.value)));
    } else {
      entry := entry.(pending := None);
    }
    entry := entry.(activeSince := None, lastSeverity := None, notified := false);
  }

  ghost predicate DistinctKeys(results: seq<RuleResult>) {
    forall i, j | 0 <= i < j < |results| :: results[i].key != results[j].key
  }

  /** What `key` is given by advancing it from its own entry. */
  ghost predicate AdvancedAlone(after: map<string, Entry>, events: seq<AlertEvent>, rules: map<string, Entry>,
                                r: RuleResult, now: Time) {
    var (entry, event) := StepEntry(EntryOf(rules, r.key), r, now);
    && EntryOf(after, r.key) == entry
    && (forall e | e in events && e.key == r.key :: Some(e) == event)
    && (event.Some? ==> event.value in events)
  }

  /** What the last rule adds. */
  lemma LastRuleAdds(results: seq<RuleResult>, rules: map<string, Entry>, now: Time)
    requires results != []
    ensures var r := results[|results| - 1];
      var (before, events) := Advanced(results[..|results| - 1], rules, now);
      var (entry, event) := StepEntry(EntryOf(before, r.key), r, now);
      var (after, all) := Advanced(results, rules, now);
      && after == before[r.key := entry]
      && (forall e :: e in all <==> e in events || Some(e) == event)
      && (event.Some? ==> event.value.key == r.key)
  {
  }

  /** A key no rule has is left alone. */
  lemma {:induction false} OthersAreUntouched(results: seq<RuleResult>, rules: map<string, Entry>, now: Time, key: string)
    requires forall i | 0 <= i < |results| :: results[i].key != key
    ensures var (after, events) := Advanced(results, rules, now);
      EntryOf(after, key) == EntryOf(rules, key) && forall event | event in events :: event.key != key
  {
    if results != [] {
      OthersAreUntouched(results[..|results| - 1], rules, now, key);
      LastRuleAdds(results, rules, now);
    }
  }

  /** Each rule is advanced from its own entry alone. */
  lemma {:induction false} EntriesAreIndependent(results: seq<RuleResult>, rules: map<string, Entry>, now: Time, i: nat)
    requires DistinctKeys(results) && i < |results|
    ensures AdvancedAlone(Advanced(results, rules, now).0, Advanced(results, rules, now).1, rules, results[i], now)
  {
    var n := |results| - 1;
    LastRuleAdds(results, rules, now);
    if i < n {
      EntriesAreIndependent(results[..n], rules, now, i);
    } else {
      OthersAreUntouched(results[..n], rules, now, results[n].key);
    }
  }

  // ----- restart rules

  /** The rule of one unit: an increase, or an increase still waiting to be delivered. */
  function RestartResult(key: string, message: string, e: Entry, current: Option<int>): RuleResult {
    var increased := current.Some? && e.lastValue.Number? && current.value > e.lastValue.n;
    var waiting := e.activeSince.Some? && !e.notified;
    RuleResult(key, Warning, increased || waiting, 0, DEFAULT_COOLDOWN_SECONDS, message,
               if current.Some? then Number(current.value) else NoValue, false)
  }
}
