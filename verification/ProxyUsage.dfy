/**
  Exactly-once recording of proxy usage over a database whose replies can be lost.

  `Ledger` is the database as the tracker's contract sees it: an append-only table with a unique key and one
  budget reservation.  Its plan says what becomes of each request: it may be answered, be refused, fail before it takes
  effect, take effect and lose its answer, or take effect only later; and what others do before it is served.  The
  requests served are kept with what the database held then, so the contracts below say which requests an operation
  sends and what it makes of the replies.
*/
module ProxyUsage {
  import opened Base

  type Key = string

  /** One event; `rest` is every other column. */
  datatype Payload = Payload(
    key: Key, reservation: Option<string>, requestCount: nat, bytesDown: nat, estimatedFloor: nat,
    documentsSkipped: nat, rest: string)

  datatype Status = Reserved | Unresolved | Finalized | Released

  datatype WriteReply = Rows(n: nat) | TransportError | ApiError

  datatype SelectReply = Found | NotFound | Mismatch | Unanswered | Refused

  datatype FinalizeReply = Confirmed | Lost | ConstraintError | OtherError

  datatype StatusReply = Row(status: Status) | NoRow | NoAnswer | Denied

  const ATTEMPTS := 3

  /** What the database says to a finalization of a reservation that has its final status. */
  datatype OnTerminal = Accepts | Constrains | Objects

  /** What happens to one request, and before it: `arrivals` are rows of others, `moves` late finalizations or expiry. */
  datatype Fate = Fate(
    arrivals: seq<Payload>, moves: seq<Option<bool>>,
    reached: bool, answered: bool, later: bool, refused: bool, owned: bool, onTerminal: OnTerminal)

  /** Nothing goes wrong. */
  const CALM := Fate([], [], true, true, false, false, true, Accepts)

  function Planned(plan: seq<Fate>, i: nat): Fate {
    if i < |plan| then plan[i] else CALM
  }

  /** A request and what the database held when it was served. */
  datatype Served =
    | Wrote(fate: Fate, ignore: bool, taken: bool)
    | Looked(fate: Fate, seen: Option<Payload>)
    | Finalizing(fate: Fate, release: bool, was: Status)
    | Inspected(fate: Fate, was: Status)

  predicate Terminal(s: Status) {
    s == Finalized || s == Released
  }

  function Expected(release: bool): Status {
    if release then Released else Finalized
  }

  function WriteReplyTo(s: Served): WriteReply
    requires s.Wrote?
  {
    if !s.fate.reached || !s.fate.answered then TransportError
    else if s.fate.refused then ApiError
    else if !s.taken then Rows(1)
    else if s.ignore then Rows(0) else ApiError
  }

  function SelectReplyTo(s: Served, p: Payload): SelectReply
    requires s.Looked?
  {
    if !s.fate.answered then Unanswered
    else if s.fate.refused then Refused
    else if s.seen == None then NotFound
    else if s.seen == Some(p) then Found else Mismatch
  }

  function FinalizeReplyTo(s: Served): FinalizeReply
    requires s.Finalizing?
  {
    if !s.fate.reached || !s.fate.answered then Lost
    else if !Terminal(s.was) then (if s.fate.refused then OtherError else Confirmed)
    else match s.fate.onTerminal
      case Accepts => if s.was == Expected(s.release) then Confirmed else ConstraintError
      case Constrains => ConstraintError
      case Objects => OtherError
  }

  function StatusReplyTo(s: Served): StatusReply
    requires s.Inspected?
  {
    if !s.fate.answered then NoAnswer
    else if s.fate.refused then Denied
    else if !s.fate.owned then NoRow else Row(s.was)
  }

  /** The table after rows of others and late writes have come in. */
  function Arrived(rows: map<Key, Payload>, late: set<Payload>, mine: Option<Key>, arrivals: seq<Payload>): (r: map<Key, Payload>)
    ensures mine.Some? && mine.value !in rows && late == {} ==> mine.value !in r
    decreases arrivals
  {
    if arrivals == [] then rows
    else
      var q := arrivals[0];
      var free := q.key !in rows && (q in late || Some(q.key) != mine);
      Arrived(if free then rows[q.key := q] else rows, late, mine, arrivals[1..])
  }

  /** The status after late finalizations and the expiry of the reservation. */
  function Moved(s: Status, late: set<bool>, moves: seq<Option<bool>>): (r: Status)
    ensures Terminal(s) ==> r == s
    ensures Terminal(r) && !Terminal(s) ==> exists release :: release in late && r == Expected(release)
    decreases moves
  {
    if moves == [] then s
    else
      var next := if Terminal(s) then s
                  else if moves[0].Some? && moves[0].value in late then Expected(moves[0].value) else Unresolved;
      Moved(next, late, moves[1..])
  }

  ghost predicate AppendOnly(before: map<Key, Payload>, after: map<Key, Payload>) {
    forall k | k in before :: k in after && after[k] == before[k]
  }

  /** The row under the key is there after a request. */
  predicate LeavesRow(s: Served) {
    (s.Wrote? && (s.taken || (s.fate.reached && !s.fate.refused))) || (s.Looked? && s.seen.Some?)
  }

  /** The status after a request about the reservation. */
  function StatusAfter(s: Served): Status
    requires s.Finalizing? || s.Inspected?
  {
    if s.Finalizing? && s.fate.reached && !s.fate.refused && !Terminal(s.was) then Expected(s.release) else s.was
  }

  /** A request finds what the one before it left. */
  predicate Follows(s: Served, t: Served) {
    && (LeavesRow(s) && t.Wrote? ==> t.taken)
    && (LeavesRow(s) && t.Looked? ==> t.seen.Some?)
    && ((s.Finalizing? || s.Inspected?) && (t.Finalizing? || t.Inspected?) && Terminal(StatusAfter(s)) ==>
          t.was == StatusAfter(s))
  }

  /** The requests served, the latest one last. */
  datatype Log = Nothing | Then(before: Log, last: Served)

  function Length(log: Log): nat {
    match log case Nothing => 0 case Then(before, _) => Length(before) + 1
  }

  function First(log: Log): Served
    requires log.Then?
  {
    if log.before.Then? then First(log.before) else log.last
  }

  /** The first `n` requests. */
  function Take(log: Log, n: nat): (t: Log)
    requires n <= Length(log)
    ensures Length(t) == n
  {
    if n == Length(log) then log else Take(log.before, n)
  }

  function Append(log: Log, more: Log): Log {
    match more case Nothing => log case Then(before, s) => Then(Append(log, before), s)
  }

  /** A write was sent; a finalization was sent. */
  predicate Sent(log: Log) {
    log.Then? && (log.last.Wrote? || Sent(log.before))
  }

  predicate SentFinal(log: Log) {
    log.Then? && (log.last.Finalizing? || SentFinal(log.before))
  }

  /** What the database holds has come from somewhere; `mine` says that nobody else writes under a key free at first. */
  predicate Caused(before: Log, s: Served, mine: bool) {
    && (mine && ((s.Wrote? && s.taken) || (s.Looked? && s.seen.Some?)) ==> Sent(before))
    && ((s.Finalizing? || s.Inspected?) && Terminal(s.was) ==> SentFinal(before))
  }

  /** The requests meet the fates planned, and each finds what the one before it left. */
  predicate History(log: Log, plan: seq<Fate>, p: Payload, contended: bool, stored: bool) {
    match log
    case Nothing => true
    case Then(before, s) =>
      && History(before, plan, p, contended, stored)
      && s.fate == Planned(plan, Length(before))
      && (before.Then? ==> Follows(before.last, s))
      && Caused(before, s, !contended && !stored)
      && (s.Looked? && !contended ==> s.seen.None? || s.seen == Some(p))
  }

  class Ledger {
    var rows: map<Key, Payload>
    var late: set<Payload>      // lost writes that may still arrive
    var status: Status
    var lateFinal: set<bool>    // lost finalizations that may still arrive, by their release flag
    var served: Log
    const own: Key              // the idempotency key of this operation
    const contended: bool       // whether another client may write under it
    const stored: bool          // whether something was under it from the start
    const plan: seq<Fate>

    constructor (own: Key, contended: bool, rows: map<Key, Payload>, plan: seq<Fate>)
      ensures this.own == own && this.contended == contended && this.stored == (own in rows) && this.rows == rows && this.plan == plan
      ensures late == {} && status == Reserved && lateFinal == {} && served == Nothing
    {
      this.own, this.contended, this.stored, this.rows, this.plan := own, contended, own in rows, rows, plan;
      late, status, lateFinal, served := {}, Reserved, {}, Nothing;
    }

    /** Everything this operation ever sends is `p`, and what is under its key is `p` unless others write there. */
    ghost predicate OnlyEver(p: Payload)
      reads this
    {
      && p.key == own
      && (forall q | q in late :: q == p)
      && (!contended && own in rows ==> rows[own] == p)
    }

    /** A finalization has its row, a release means no provider request; also for those still on their way. */
    ghost predicate Consistent(p: Payload)
      reads this
    {
      && (status == Finalized || false in lateFinal ==> own in rows && rows[own] == p)
      && (status == Released || true in lateFinal ==> p.requestCount == 0)
    }

    /** The requests served so far tell the truth about the database. */
    ghost predicate Recorded(p: Payload)
      reads this
    {
      && History(served, plan, p, contended, stored)
      && (!contended && !stored && (own in rows || late != {}) ==> Sent(served))
      && (Terminal(status) || lateFinal != {} ==> SentFinal(served))
      && (served.Then? ==> Left(served.last))
    }

    /** What the request left is still there. */
    ghost predicate Left(s: Served)
      reads this
    {
      && (LeavesRow(s) ==> own in rows)
      && (s.Finalizing? || s.Inspected? ==> Terminal(StatusAfter(s)) ==> status == StatusAfter(s))
    }

    function Next(): Fate
      reads this
    {
      Planned(plan, Length(served))
    }

    /** The table and the status when the next request is served. */
    function RowsThen(): map<Key, Payload>
      reads this
    {
      Arrived(rows, late, if contended then None else Some(own), Next().arrivals)
    }

    function StatusThen(): Status
      reads this
    {
      Moved(status, lateFinal, Next().moves)
    }

    /** What happens elsewhere before a request is served. */
    method OthersRun(ghost p: Payload)
      requires OnlyEver(p) && Consistent(p)
      modifies this`rows, this`status
      ensures OnlyEver(p) && Consistent(p) && AppendOnly(old(rows), rows)
      ensures rows == old(RowsThen()) && status == old(StatusThen())
      ensures Terminal(old(status)) ==> status == old(status)
    {
      var arrivals, moves := Next().arrivals, Next().moves;
      ghost var mine := if contended then None else Some(own);
      for i := 0 to |arrivals|
        invariant OnlyEver(p) && Consistent(p) && AppendOnly(old(rows), rows)
        invariant Arrived(rows, late, mine, arrivals[i..]) == old(RowsThen())
        invariant status == old(status)
      {
        var q := arrivals[i];
        assert arrivals[i..][1..] == arrivals[i + 1..];
        if q.key !in rows && (q in late || contended || q.key != own) {
          rows := rows[q.key := q];
        }
      }
      for i := 0 to |moves|
        invariant OnlyEver(p) && Consistent(p) && rows == old(RowsThen())
        invariant Moved(status, lateFinal, moves[i..]) == old(StatusThen())
        invariant Terminal(old(status)) ==> status == old(status)
      {
        assert moves[i..][1..] == moves[i + 1..];
        if !Terminal(status) {
          status := if moves[i].Some? && moves[i].value in lateFinal then Expected(moves[i].value) else Unresolved;
        }
      }
    }

    /** `insert`, or `upsert` ignoring duplicates when `ignore` holds. */
    method Write(p: Payload, ignore: bool) returns (r: WriteReply)
      requires OnlyEver(p) && Consistent(p) && Recorded(p)
      modifies this`rows, this`status, this`late, this`served
      ensures OnlyEver(p) && Consistent(p) && Recorded(p) && AppendOnly(old(rows), rows)
      ensures served == Then(old(served), Wrote(old(Next()), ignore, own in old(RowsThen())))
      ensures r == WriteReplyTo(served.last)
      ensures status == old(StatusThen())
      ensures r == Rows(1) ==> own in rows && rows[own] == p
      ensures r.Rows? ==> r.n <= 1 && (r.n == 0 ==> ignore && own in rows)
    {
      var fate := Next();
      OthersRun(p);
      var request := Wrote(fate, ignore, p.key in rows);
      served := Then(served, request);
      r := WriteReplyTo(request);
      if !fate.reached {
        if fate.later {
          late := late + {p};
        }
        return;
      }
      if p.key !in rows && !fate.refused {
        rows := rows[p.key := p];
      }
    }

    method Select(p: Payload) returns (r: SelectReply)
      requires OnlyEver(p) && Consistent(p) && Recorded(p)
      modifies this`rows, this`status, this`served
      ensures OnlyEver(p) && Consistent(p) && Recorded(p) && AppendOnly(old(rows), rows)
      ensures rows == old(RowsThen()) && status == old(StatusThen())
      ensures served == Then(old(served), Looked(old(Next()), if own in rows then Some(rows[own]) else None))
      ensures r == SelectReplyTo(served.last, p)
      ensures r == Found ==> own in rows && rows[own] == p
    {
      var fate := Next();
      OthersRun(p);
      var request := Looked(fate, if p.key in rows then Some(rows[p.key]) else None);
      served := Then(served, request);
      r := SelectReplyTo(request, p);
    }

    method FinalizeReservation(release: bool, ghost p: Payload) returns (r: FinalizeReply)
      requires OnlyEver(p) && Consistent(p) && Recorded(p)
      requires if release then p.requestCount == 0 else own in rows && rows[own] == p
      modifies this`rows, this`status, this`lateFinal, this`served
      ensures OnlyEver(p) && Consistent(p) && Recorded(p) && AppendOnly(old(rows), rows)
      ensures served == Then(old(served), Finalizing(old(Next()), release, old(StatusThen())))
      ensures r == FinalizeReplyTo(served.last)
      ensures r == Confirmed ==> status == Expected(release)
      ensures status == if old(Next()).reached && !old(Next()).refused && !Terminal(old(StatusThen())) then Expected(release) else old(StatusThen())
    {
      var fate := Next();
      OthersRun(p);
      var request := Finalizing(fate, release, status);
      served := Then(served, request);
      r := FinalizeReplyTo(request);
      if !fate.reached {
        if fate.later {
          lateFinal := lateFinal + {release};
        }
        return;
      }
      if !Terminal(status) && !fate.refused {
        status := Expected(release);
      }
    }

    method SelectReservation(ghost p: Payload) returns (r: StatusReply)
      requires OnlyEver(p) && Consistent(p) && Recorded(p)
      modifies this`rows, this`status, this`served
      ensures OnlyEver(p) && Consistent(p) && Recorded(p) && AppendOnly(old(rows), rows)
      ensures status == old(StatusThen())
      ensures served == Then(old(served), Inspected(old(Next()), status))
      ensures r == StatusReplyTo(served.last)
    {
      var fate := Next();
      OthersRun(p);
      var request := Inspected(fate, status);
      served := Then(served, request);
      r := StatusReplyTo(request);
    }
  }

  // ---- What is asked of the database, and what is made of the replies ----

  /** The reply shows the row `p` recorded. */
  predicate Shows(s: Served, p: Payload) {
    if s.Wrote? then s.fate.reached && s.fate.answered && !s.fate.refused && !s.taken
    else s.Looked? && s.fate.answered && !s.fate.refused && s.seen == Some(p)
  }

  /** The reply ends the attempts: an error of the database, a second insert, or another row under the key. */
  predicate Ends(s: Served, p: Payload) {
    if s.Wrote? then s.fate.reached && s.fate.answered && (s.fate.refused || (s.taken && !s.ignore))
    else s.Looked? && s.fate.answered && (s.fate.refused || (s.seen.Some? && s.seen != Some(p)))
  }

  function Writes(asked: Log): nat {
    match asked case Nothing => 0 case Then(before, s) => Writes(before) + if s.Wrote? then 1 else 0
  }

  /** The last look got no answer after a write that was answered without a row. */
  predicate LookedInVain(asked: Log) {
    && asked.Then? && asked.last.Looked? && !asked.last.fate.answered && asked.before.Then?
    && (var write := asked.before.last; write.Wrote? && write.fate.reached && write.fate.answered)
  }

  /** Insert first, then upserts; a look after each of them, and one more after a look in vain. */
  predicate Asking(asked: Log, p: Payload) {
    match asked
    case Nothing => true
    case Then(Nothing, s) => s.Wrote? && !s.ignore
    case Then(before, s) =>
      && Asking(before, p) && !Shows(before.last, p) && !Ends(before.last, p)
      && if before.last.Wrote? || LookedInVain(before) then s.Looked? else s.Wrote? && s.ignore
  }

  /** All attempts of one event: success is a reply that shows the row, failure one that ends them or three writes. */
  predicate Recording(asked: Log, p: Payload, ok: bool) {
    && asked.Then? && Asking(asked, p) && Writes(asked) <= 3
    && (ok <==> Shows(asked.last, p))
    && (!ok ==> Ends(asked.last, p) || (Writes(asked) == 3 && asked.last.Looked? && !LookedInVain(asked)))
  }

  /** Between two attempts. */
  predicate Resting(asked: Log, p: Payload) {
    && Asking(asked, p)
    && (asked.Then? ==> asked.last.Looked? && !Shows(asked.last, p) && !Ends(asked.last, p) && !LookedInVain(asked))
  }

  /** `_existing_usage_event`. */
  method ExistingUsageEvent(db: Ledger, p: Payload, ghost earlier: Log, ghost asked: Log) returns (r: SelectReply, ghost more: Log)
    requires db.OnlyEver(p) && db.Consistent(p) && db.Recorded(p)
    requires db.served == Append(earlier, asked)
    requires Asking(asked, p) && asked.Then? && !Shows(asked.last, p) && !Ends(asked.last, p)
    requires asked.last.Wrote? || LookedInVain(asked)
    modifies db`rows, db`status, db`served
    ensures db.OnlyEver(p) && db.Consistent(p) && db.Recorded(p) && AppendOnly(old(db.rows), db.rows)
    ensures more.Then? && more.before == asked && db.served == Append(earlier, more)
    ensures Asking(more, p) && more.last.Looked? && Writes(more) == Writes(asked)
    ensures r == SelectReplyTo(more.last, p) && (r == Found ==> db.own in db.rows && db.rows[db.own] == p)
  {
    r := db.Select(p);
    more := Then(asked, db.served.last);
  }

  /** The look after a write, and the look after that when a write answered without a row got no answer. */
  method Reconcile(db: Ledger, p: Payload, again: bool, ghost earlier: Log, ghost asked: Log) returns (r: SelectReply, ghost more: Log)
    requires db.OnlyEver(p) && db.Consistent(p) && db.Recorded(p)
    requires db.served == Append(earlier, asked)
    requires Asking(asked, p) && asked.Then? && asked.last.Wrote? && !Shows(asked.last, p) && !Ends(asked.last, p)
    requires again <==> asked.last.fate.reached && asked.last.fate.answered
    modifies db`rows, db`status, db`served
    ensures db.OnlyEver(p) && db.Consistent(p) && db.Recorded(p) && AppendOnly(old(db.rows), db.rows)
    ensures more.Then? && db.served == Append(earlier, more)
    ensures Asking(more, p) && more.last.Looked? && !LookedInVain(more) && Writes(more) == Writes(asked)
    ensures r == SelectReplyTo(more.last, p) && (r == Found ==> db.own in db.rows && db.rows[db.own] == p)
  {
    r, more := ExistingUsageEvent(db, p, earlier, asked);
    if again && r == Unanswered {
      r, more := ExistingUsageEvent(db, p, earlier, more);
    }
  }

  /** One turn of the loop; `None` is another turn. */
  method Attempt(db: Ledger, p: Payload, first: bool, ghost earlier: Log, ghost asked: Log)
    returns (outcome: Option<bool>, ghost more: Log)
    requires db.OnlyEver(p) && db.Consistent(p) && db.Recorded(p)
    requires db.served == Append(earlier, asked) && Resting(asked, p) && (first <==> asked == Nothing)
    modifies db`rows, db`status, db`late, db`served
    ensures db.OnlyEver(p) && db.Consistent(p) && db.Recorded(p) && AppendOnly(old(db.rows), db.rows)
    ensures more.Then? && db.served == Append(earlier, more)
    ensures Asking(more, p) && Writes(more) == Writes(asked) + 1
    ensures outcome == None ==> Resting(more, p)
    ensures outcome.Some? ==> (outcome.value <==> Shows(more.last, p)) && (!outcome.value ==> Ends(more.last, p))
    ensures outcome == Some(true) ==> db.own in db.rows && db.rows[db.own] == p
  {
    var reply := db.Write(p, !first);
    more := Then(asked, db.served.last);
    if reply == ApiError {
      return Some(false), more;
    }
    if reply == Rows(1) {
      return Some(true), more;
    }
    var existing;
    existing, more := Reconcile(db, p, reply.Rows?, earlier, more);
    outcome := match existing
      case Found => Some(true)
      case Mismatch => Some(false)
      case Refused => Some(false)
      case _ => None;
  }

  /** `_persist_usage_event`; a raised error is the result `false`. */
  method PersistUsageEvent(db: Ledger, p: Payload) returns (ok: bool, ghost asked: Log)
    requires db.OnlyEver(p) && db.Consistent(p) && db.Recorded(p)
    modifies db`rows, db`status, db`late, db`served
    ensures db.OnlyEver(p) && db.Consistent(p) && db.Recorded(p) && AppendOnly(old(db.rows), db.rows)
    ensures ok ==> db.own in db.rows && db.rows[db.own] == p
    ensures db.served == Append(old(db.served), asked) && Recording(asked, p, ok)
  {
    asked := Nothing;
    for attempt := 0 to ATTEMPTS
      invariant db.OnlyEver(p) && db.Consistent(p) && db.Recorded(p) && AppendOnly(old(db.rows), db.rows)
      invariant db.served == Append(old(db.served), asked)
      invariant Resting(asked, p) && Writes(asked) == attempt && (attempt > 0 <==> asked != Nothing)
    {
      var outcome;
      outcome, asked := Attempt(db, p, attempt == 0, old(db.served), asked);
      if outcome.Some? {
        return outcome.value, asked;
      }
    }
    return false, asked;
  }

  /** A reply that shows the row, or ends the attempts, is the last one and decides. */
  lemma {:induction false} Decides(asked: Log, p: Payload, n: nat)
    requires Asking(asked, p) && 0 < n <= Length(asked)
    ensures Asking(Take(asked, n), p) && First(Take(asked, n)) == First(asked)
    ensures n < Length(asked) ==> !Shows(Take(asked, n).last, p) && !Ends(Take(asked, n).last, p)
  {
    if n < Length(asked) {
      Decides(asked.before, p, n);
    }
  }

  lemma {:induction false} HistoryOf(earlier: Log, asked: Log, plan: seq<Fate>, p: Payload, contended: bool,
      stored: bool, n: nat)
    requires History(Append(earlier, asked), plan, p, contended, stored) && n <= Length(asked)
    ensures History(Append(earlier, Take(asked, n)), plan, p, contended, stored)
    ensures Length(Append(earlier, Take(asked, n))) == Length(earlier) + n
  {
    if n == Length(asked) {
      AppendLength(earlier, asked);
    } else {
      HistoryOf(earlier, asked.before, plan, p, contended, stored, n);
    }
  }

  lemma {:induction false} AppendLength(log: Log, more: Log)
    ensures Length(Append(log, more)) == Length(log) + Length(more)
  {
    if more.Then? {
      AppendLength(log, more.before);
    }
  }

  /** The `n`-th request met the fate planned for it. */
  lemma FateOf(earlier: Log, asked: Log, plan: seq<Fate>, p: Payload, contended: bool, stored: bool, n: nat)
    requires History(Append(earlier, asked), plan, p, contended, stored) && 0 < n <= Length(asked)
    ensures Take(asked, n).last.fate == Planned(plan, Length(earlier) + n - 1)
  {
    HistoryOf(earlier, asked, plan, p, contended, stored, n);
    AppendLength(earlier, Take(asked, n).before);
  }

  lemma {:induction false} FirstOf(asked: Log)
    requires asked.Then?
    ensures Take(asked, 1) == Then(Nothing, First(asked))
  {
    if asked.before.Then? {
      FirstOf(asked.before);
    }
  }

  /** An insert that arrives at a free key and is answered is all it takes. */
  lemma RecordedAtOnce(asked: Log, p: Payload, ok: bool)
    requires Recording(asked, p, ok)
    requires First(asked).Wrote? && var f := First(asked).fate; f.reached && f.answered && !f.refused
    ensures First(asked).taken ==> !ok
    ensures !First(asked).taken ==> ok
    ensures Length(asked) == 1
  {
    Decides(asked, p, 1);
    FirstOf(asked);
  }

  /** Number `n` of the requests of an operation, counted from one, and what is known of it. */
  lemma RequestAt(earlier: Log, asked: Log, plan: seq<Fate>, p: Payload, n: nat)
    requires History(Append(earlier, asked), plan, p, false, false) && Asking(asked, p) && 0 < n <= Length(asked)
    ensures var t := Take(asked, n);
      && Asking(t, p) && t.last.fate == Planned(plan, Length(earlier) + n - 1)
      && (n == 1 ==> t.before == Nothing && t.last.Wrote?) && (n == Length(asked) ==> t == asked)
      && (t.last.Looked? ==> t.last.seen.None? || t.last.seen == Some(p))
      && (n > 1 ==> t.before == Take(asked, n - 1) && Follows(t.before.last, t.last))
      && (n < Length(asked) ==> !Shows(t.last, p) && !Ends(t.last, p))
  {
    Decides(asked, p, n);
    assert n == 1 ==> Length(Take(asked, n).before) == 0;
    FateOf(earlier, asked, plan, p, false, false, n);
    HistoryOf(earlier, asked, plan, p, false, false, n);
    if n > 1 {
      TakeBefore(asked, n);
      assert Append(earlier, Take(asked, n)).before == Append(earlier, Take(asked, n - 1));
    }
  }

  lemma {:induction false} TakeBefore(log: Log, n: nat)
    requires 0 < n <= Length(log)
    ensures Take(log, n).before == Take(log, n - 1)
  {
    if n < Length(log) {
      TakeBefore(log.before, n);
    }
  }

  /** A write whose reply was lost is found again by the look after it. */
  lemma LostReplyIsReconciled(earlier: Log, asked: Log, plan: seq<Fate>, p: Payload, ok: bool)
    requires History(Append(earlier, asked), plan, p, false, false) && Recording(asked, p, ok)
    requires var f := Planned(plan, Length(earlier)); f.reached && !f.answered && !f.refused
    requires var f := Planned(plan, Length(earlier) + 1); f.answered && !f.refused
    ensures ok && Length(asked) == 2
  {
    RequestAt(earlier, asked, plan, p, 1);
    if Length(asked) > 1 {
      RequestAt(earlier, asked, plan, p, 2);
    }
  }

  lemma {:induction false} WritesOf(asked: Log, n: nat)
    requires n <= Length(asked)
    ensures Writes(Take(asked, n)) <= Writes(asked)
  {
    if n < Length(asked) {
      WritesOf(asked.before, n);
    }
  }

  /** No answer to the `n` requests from number `from` on. */
  predicate Silent(plan: seq<Fate>, from: nat, n: nat) {
    forall i | from <= i < from + n :: !Planned(plan, i).answered
  }

  /** While nothing is answered, writes and looks alternate. */
  lemma {:induction false} UnansweredAlternate(earlier: Log, asked: Log, plan: seq<Fate>, p: Payload, n: nat)
    requires History(Append(earlier, asked), plan, p, false, false) && Asking(asked, p) && 0 < n <= Length(asked)
    requires Silent(plan, Length(earlier), n - 1)
    ensures Take(asked, n).last.Wrote? <==> n % 2 == 1
    ensures Take(asked, n).last.Looked? <==> n % 2 == 0
    ensures Writes(Take(asked, n)) == (n + 1) / 2
    ensures !Planned(plan, Length(earlier) + n - 1).answered ==> !LookedInVain(Take(asked, n))
  {
    RequestAt(earlier, asked, plan, p, n);
    if n > 1 {
      UnansweredAlternate(earlier, asked, plan, p, n - 1);
      RequestAt(earlier, asked, plan, p, n - 1);
      assert !Planned(plan, Length(earlier) + n - 2).answered;
    }
  }

  /** Nothing answered: three writes, a look after each, and an error. */
  lemma UnansweredGivesUp(earlier: Log, asked: Log, plan: seq<Fate>, p: Payload, ok: bool)
    requires History(Append(earlier, asked), plan, p, false, false) && Recording(asked, p, ok)
    requires Silent(plan, Length(earlier), 6)
    ensures !ok && Length(asked) == 6 && Writes(asked) == 3
  {
    var n := if Length(asked) > 7 then 7 else Length(asked);
    UnansweredAlternate(earlier, asked, plan, p, n);
    RequestAt(earlier, asked, plan, p, n);
    WritesOf(asked, n);
  }

  /** The third write can still succeed: two attempts without any answer, then one with. */
  lemma ThirdWriteRecords(earlier: Log, asked: Log, plan: seq<Fate>, p: Payload, ok: bool)
    requires History(Append(earlier, asked), plan, p, false, false) && Recording(asked, p, ok)
    requires Silent(plan, Length(earlier), 4)
    requires var f := Planned(plan, Length(earlier) + 4); f.reached && f.answered && !f.refused
    requires var f := Planned(plan, Length(earlier) + 5); f.answered && !f.refused
    ensures ok && 5 <= Length(asked) <= 6
  {
    var n := if Length(asked) > 5 then 5 else Length(asked);
    UnansweredAlternate(earlier, asked, plan, p, n);
    RequestAt(earlier, asked, plan, p, n);
    if Length(asked) > 5 {
      RequestAt(earlier, asked, plan, p, 6);
    }
  }

  // ---- The reservation ----

  /** The reply shows the final status asked for. */
  predicate Confirms(s: Served, release: bool) {
    if s.Finalizing? then
      s.fate.reached && s.fate.answered &&
      if Terminal(s.was) then s.fate.onTerminal == Accepts && s.was == Expected(s.release) else !s.fate.refused
    else s.Inspected? && s.fate.answered && !s.fate.refused && s.fate.owned && s.was == Expected(release)
  }

  /** The reply ends the attempts: another error, a reservation not ours, or the other final status. */
  predicate Denies(s: Served, release: bool) {
    if s.Finalizing? then
      s.fate.reached && s.fate.answered && if Terminal(s.was) then s.fate.onTerminal == Objects else s.fate.refused
    else s.Inspected? && s.fate.answered &&
         (s.fate.refused || !s.fate.owned || (Terminal(s.was) && s.was != Expected(release)))
  }

  /** A constraint was violated: that is looked into once and not tried again. */
  predicate Constrained(s: Served) {
    && s.Finalizing? && s.fate.reached && s.fate.answered && Terminal(s.was)
    && (s.fate.onTerminal == Constrains || (s.fate.onTerminal == Accepts && s.was != Expected(s.release)))
  }

  /** A finalization and a look in turn. */
  predicate Pursuing(asked: Log, release: bool) {
    match asked
    case Nothing => true
    case Then(Nothing, s) => s.Finalizing? && s.release == release
    case Then(before, s) =>
      && Pursuing(before, release) && !Confirms(before.last, release) && !Denies(before.last, release)
      && if before.last.Finalizing? then s.Inspected?
         else s.Finalizing? && s.release == release && before.before.Then? && !Constrained(before.before.last)
  }

  /** All attempts at one finalization. */
  predicate Settling(asked: Log, release: bool, ok: bool) {
    && asked.Then? && Pursuing(asked, release) && Length(asked) <= 6
    && (ok <==> Confirms(asked.last, release))
    && (!ok ==>
          || Denies(asked.last, release)
          || (asked.last.Inspected? && asked.before.Then? && (Length(asked) == 6 || Constrained(asked.before.last))))
  }

  /** The look at the reservation after a finalization that was lost or constrained; `None` is another turn. */
  method Inspect(db: Ledger, release: bool, retryable: bool, ghost p: Payload, ghost earlier: Log, ghost asked: Log)
    returns (outcome: Option<bool>, ghost more: Log)
    requires db.OnlyEver(p) && db.Consistent(p) && db.Recorded(p)
    requires db.served == Append(earlier, asked) && Pursuing(asked, release)
    requires asked.Then? && asked.last.Finalizing? && !Confirms(asked.last, release) && !Denies(asked.last, release)
    requires retryable <==> !Constrained(asked.last)
    modifies db`rows, db`status, db`served
    ensures db.OnlyEver(p) && db.Consistent(p) && db.Recorded(p) && AppendOnly(old(db.rows), db.rows)
    ensures more.Then? && more.before == asked && db.served == Append(earlier, more) && Pursuing(more, release)
    ensures outcome == Some(true) ==> db.status == Expected(release)
    ensures more.last.Inspected? && (outcome == Some(true) <==> Confirms(more.last, release))
    ensures outcome == Some(false) ==> Denies(more.last, release) || Constrained(asked.last)
    ensures outcome == None ==> !Denies(more.last, release) && retryable
  {
    var found := db.SelectReservation(p);
    more := Then(asked, db.served.last);
    if found.NoRow? || found.Denied? {
      return Some(false), more;
    }
    if found.Row? {
      if found.status == Expected(release) {
        return Some(true), more;
      }
      if found.status != Reserved && found.status != Unresolved {
        return Some(false), more;
      }
    }
    outcome := if retryable then None else Some(false);
  }

  /** One turn of the loop; `None` is another turn. */
  method FinalizeOnce(db: Ledger, release: bool, ghost p: Payload, ghost earlier: Log, ghost asked: Log)
    returns (outcome: Option<bool>, ghost more: Log)
    requires db.OnlyEver(p) && db.Consistent(p) && db.Recorded(p)
    requires if release then p.requestCount == 0 else db.own in db.rows && db.rows[db.own] == p
    requires db.served == Append(earlier, asked) && Pursuing(asked, release)
    requires asked.Then? ==>
               && asked.last.Inspected? && !Confirms(asked.last, release) && !Denies(asked.last, release)
               && asked.before.Then? && !Constrained(asked.before.last)
    modifies db`rows, db`status, db`lateFinal, db`served
    ensures db.OnlyEver(p) && db.Consistent(p) && db.Recorded(p) && AppendOnly(old(db.rows), db.rows)
    ensures outcome == Some(true) ==> db.status == Expected(release)
    ensures more.Then? && db.served == Append(earlier, more) && Pursuing(more, release)
    ensures Length(asked) < Length(more) <= Length(asked) + 2
    ensures outcome != Some(true) ==> !Confirms(more.last, release)
    ensures outcome == Some(true) ==> Confirms(more.last, release)
    ensures outcome == Some(false) ==>
              || Denies(more.last, release)
              || (more.last.Inspected? && more.before.Then? && Constrained(more.before.last))
    ensures outcome == None ==>
              && Length(more) == Length(asked) + 2 && more.last.Inspected? && !Denies(more.last, release)
              && more.before.Then? && !Constrained(more.before.last)
  {
    var reply := db.FinalizeReservation(release, p);
    more := Then(asked, db.served.last);
    if reply == Confirmed {
      return Some(true), more;
    }
    if reply == OtherError {
      return Some(false), more;
    }
    outcome, more := Inspect(db, release, reply == Lost, p, earlier, more);
  }

  /** `_finalize`. */
  method FinalizeBudget(db: Ledger, release: bool, ghost p: Payload) returns (ok: bool, ghost asked: Log)
    requires db.OnlyEver(p) && db.Consistent(p) && db.Recorded(p)
    requires if release then p.requestCount == 0 else db.own in db.rows && db.rows[db.own] == p
    modifies db`rows, db`status, db`lateFinal, db`served
    ensures db.OnlyEver(p) && db.Consistent(p) && db.Recorded(p) && AppendOnly(old(db.rows), db.rows)
    ensures ok ==> db.status == Expected(release)
    ensures db.served == Append(old(db.served), asked) && Settling(asked, release, ok)
  {
    asked := Nothing;
    for attempt := 0 to ATTEMPTS
      invariant db.OnlyEver(p) && db.Consistent(p) && db.Recorded(p) && AppendOnly(old(db.rows), db.rows)
      invariant db.served == Append(old(db.served), asked) && Pursuing(asked, release) && Length(asked) == 2 * attempt
      invariant asked.Then? ==>
                  && asked.last.Inspected? && !Confirms(asked.last, release) && !Denies(asked.last, release)
                  && asked.before.Then? && !Constrained(asked.before.last)
    {
      var outcome;
      outcome, asked := FinalizeOnce(db, release, p, old(db.served), asked);
      if outcome.Some? {
        return outcome.value, asked;
      }
    }
    return false, asked;
  }

  lemma {:induction false} Pursued(asked: Log, release: bool, n: nat)
    requires Pursuing(asked, release) && 0 < n <= Length(asked)
    ensures Pursuing(Take(asked, n), release)
    ensures n < Length(asked) ==> !Confirms(Take(asked, n).last, release) && !Denies(Take(asked, n).last, release)
  {
    if n < Length(asked) {
      Pursued(asked.before, release, n);
    }
  }

  /** Number `n` of the requests about a reservation, counted from one, and what is known of it. */
  lemma FinalizationAt(earlier: Log, asked: Log, plan: seq<Fate>, p: Payload, contended: bool, stored: bool,
      release: bool, n: nat)
    requires History(Append(earlier, asked), plan, p, contended, stored) && Pursuing(asked, release) && 0 < n <= Length(asked)
    ensures var t := Take(asked, n);
      && Pursuing(t, release) && t.last.fate == Planned(plan, Length(earlier) + n - 1)
      && (n == 1 ==> t.before == Nothing && t.last.Finalizing? && t.last.release == release)
      && (n == 1 && !SentFinal(earlier) ==> !Terminal(t.last.was))
      && (n > 1 ==> t.before == Take(asked, n - 1) && Follows(t.before.last, t.last))
      && (n < Length(asked) ==> !Confirms(t.last, release) && !Denies(t.last, release))
      && (n == Length(asked) ==> t == asked)
  {
    Pursued(asked, release, n);
    assert n == 1 ==> Length(Take(asked, n).before) == 0;
    FateOf(earlier, asked, plan, p, contended, stored, n);
    HistoryOf(earlier, asked, plan, p, contended, stored, n);
    if n > 1 {
      TakeBefore(asked, n);
      assert Append(earlier, Take(asked, n)).before == Append(earlier, Take(asked, n - 1));
    }
  }

  /** The first finalization of a reservation, answered, is all it takes. */
  lemma FinalizedAtOnce(earlier: Log, asked: Log, plan: seq<Fate>, p: Payload, contended: bool, stored: bool,
      release: bool, ok: bool)
    requires History(Append(earlier, asked), plan, p, contended, stored) && Settling(asked, release, ok) && !SentFinal(earlier)
    requires var f := Planned(plan, Length(earlier)); f.reached && f.answered
    ensures Length(asked) == 1 && (ok <==> !Planned(plan, Length(earlier)).refused)
  {
    FinalizationAt(earlier, asked, plan, p, contended, stored, release, 1);
  }

  /** A finalization whose reply was lost is found again by the look after it. */
  lemma LostFinalizationIsReconciled(earlier: Log, asked: Log, plan: seq<Fate>, p: Payload, contended: bool,
      stored: bool, release: bool, ok: bool)
    requires History(Append(earlier, asked), plan, p, contended, stored) && Settling(asked, release, ok) && !SentFinal(earlier)
    requires var f := Planned(plan, Length(earlier)); f.reached && !f.answered && !f.refused
    requires var f := Planned(plan, Length(earlier) + 1); f.answered && !f.refused && f.owned
    ensures ok && Length(asked) == 2
  {
    FinalizationAt(earlier, asked, plan, p, contended, stored, release, 1);
    if Length(asked) > 1 {
      FinalizationAt(earlier, asked, plan, p, contended, stored, release, 2);
    }
  }

  /** A violated constraint is looked into once: it is no error exactly when the status is the one asked for. */
  lemma ConstraintIsReconciledOnce(earlier: Log, asked: Log, plan: seq<Fate>, p: Payload, contended: bool,
      stored: bool, release: bool, ok: bool)
    requires History(Append(earlier, asked), plan, p, contended, stored) && Settling(asked, release, ok)
    requires Constrained(First(asked))
    ensures Length(asked) == 2 && asked.last.Inspected?
    ensures var f := Planned(plan, Length(earlier) + 1);
      ok <==> f.answered && !f.refused && f.owned && First(asked).was == Expected(release)
  {
    FirstOf(asked);
    FinalizationAt(earlier, asked, plan, p, contended, stored, release, 1);
    if Length(asked) > 1 {
      FinalizationAt(earlier, asked, plan, p, contended, stored, release, 2);
    }
    if Length(asked) > 2 {
      FinalizationAt(earlier, asked, plan, p, contended, stored, release, 3);
    }
  }

  /** While nothing is answered, finalizations and looks alternate. */
  lemma {:induction false} UnansweredTurns(earlier: Log, asked: Log, plan: seq<Fate>, p: Payload,
      contended: bool, stored: bool, release: bool, n: nat)
    requires History(Append(earlier, asked), plan, p, contended, stored) && Pursuing(asked, release) && 0 < n <= Length(asked)
    requires Silent(plan, Length(earlier), n - 1)
    ensures Take(asked, n).last.Finalizing? <==> n % 2 == 1
    ensures Take(asked, n).last.Inspected? <==> n % 2 == 0
  {
    FinalizationAt(earlier, asked, plan, p, contended, stored, release, n);
    if n > 1 {
      UnansweredTurns(earlier, asked, plan, p, contended, stored, release, n - 1);
    }
  }

  /** Nothing answered: three finalizations, a look after each, and an error. */
  lemma UnansweredFinalizationGivesUp(earlier: Log, asked: Log, plan: seq<Fate>, p: Payload, contended: bool,
      stored: bool, release: bool, ok: bool)
    requires History(Append(earlier, asked), plan, p, contended, stored) && Settling(asked, release, ok)
    requires Silent(plan, Length(earlier), 6)
    ensures !ok && Length(asked) == 6
  {
    var n := Length(asked);
    UnansweredTurns(earlier, asked, plan, p, contended, stored, release, n);
    FinalizationAt(earlier, asked, plan, p, contended, stored, release, n);
    if n > 1 {
      FinalizationAt(earlier, asked, plan, p, contended, stored, release, n - 1);
    }
  }

  /** The third finalization can still succeed. */
  lemma ThirdFinalizationSettles(earlier: Log, asked: Log, plan: seq<Fate>, p: Payload, contended: bool,
      stored: bool, release: bool, ok: bool)
    requires History(Append(earlier, asked), plan, p, contended, stored) && Settling(asked, release, ok)
    requires Silent(plan, Length(earlier), 4)
    requires var f := Planned(plan, Length(earlier) + 4); f.reached && f.answered && !f.refused
    ensures Length(asked) >= 5 && Take(asked, 5).last.Finalizing?
    ensures !Terminal(Take(asked, 5).last.was) ==> ok && Length(asked) == 5
  {
    var n := if Length(asked) > 5 then 5 else Length(asked);
    UnansweredTurns(earlier, asked, plan, p, contended, stored, release, n);
    FinalizationAt(earlier, asked, plan, p, contended, stored, release, n);
    if n > 1 {
      FinalizationAt(earlier, asked, plan, p, contended, stored, release, n - 1);
    }
  }

  /** What the capture counted during the operation. */
  datatype Usage = Usage(requestCount: nat, bytesDown: nat, documentsSkipped: nat)

  function EventOf(key: Key, reservation: string, usage: Usage, estimatedBytes: nat, rest: string): Payload {
    var provider := usage.requestCount > 0;
    Payload(key, if provider then Some(reservation) else None, usage.requestCount, usage.bytesDown,
            if provider && usage.bytesDown == 0 then estimatedBytes else 0, usage.documentsSkipped, rest)
  }

  lemma {:induction false} AppendNothing(log: Log)
    ensures Append(Nothing, log) == log
  {
    if log.Then? {
      AppendNothing(log.before);
    }
  }

  lemma {:induction false} AskedNoFinalization(asked: Log, p: Payload)
    requires Asking(asked, p)
    ensures !SentFinal(asked)
  {
    if asked.Then? && asked.before.Then? {
      AskedNoFinalization(asked.before, p);
    }
  }

  lemma {:induction false} HistoryBefore(log: Log, more: Log, plan: seq<Fate>, p: Payload, contended: bool, stored: bool)
    requires History(Append(log, more), plan, p, contended, stored)
    ensures History(log, plan, p, contended, stored)
  {
    if more.Then? {
      HistoryBefore(log, more.before, plan, p, contended, stored);
    }
  }

  /** On a database without trouble the operation returns, after one request for the event and one for the reservation. */
  lemma CalmOperation(plan: seq<Fate>, p: Payload, release: bool, recording: Log, recorded: bool, settling: Log, ok: bool)
    requires plan == [] && History(Append(recording, settling), plan, p, false, false)
    requires if recording == Nothing then recorded else Recording(recording, p, recorded)
    requires if recorded then Settling(settling, release, ok) else settling == Nothing && !ok
    ensures ok && Length(recording) <= 1 && Length(settling) == 1
  {
    if recording.Then? {
      HistoryBefore(recording, settling, plan, p, false, false);
      AppendNothing(recording);
      RequestAt(Nothing, recording, plan, p, 1);
      FirstOf(recording);
      RecordedAtOnce(recording, p, recorded);
      AskedNoFinalization(recording, p);
    }
    FinalizedAtOnce(recording, settling, plan, p, false, false, release, ok);
  }

  /**
    `_persist_and_finalize`.  Whether it returns or raises, and whatever arrives late: a finalized reservation has its
    row, a released one had no provider request.  When it returns, the reservation is released exactly when no provider
    request was counted and finalized otherwise, and anything counted is one row under the key.
  */
  method PersistAndFinalize(db: Ledger, usage: Usage, reservation: string, estimatedBytes: nat, rest: string)
    returns (ok: bool, ghost recording: Log, ghost settling: Log)
    requires db.late == {} && db.lateFinal == {} && !Terminal(db.status) && db.served == Nothing
    requires db.stored == (db.own in db.rows) && (!db.contended ==> !db.stored)
    modifies db
    ensures var p := EventOf(db.own, reservation, usage, estimatedBytes, rest);
      && db.OnlyEver(p) && db.Consistent(p) && AppendOnly(old(db.rows), db.rows)
      && (ok ==>
            && (db.status == Released <==> usage.requestCount == 0)
            && (db.status == Finalized <==> usage.requestCount > 0)
            && (usage.requestCount > 0 || usage.documentsSkipped > 0 ==> db.own in db.rows && db.rows[db.own] == p))
    ensures var p := EventOf(db.own, reservation, usage, estimatedBytes, rest);
      && db.served == Append(recording, settling) && db.Recorded(p)
      && (recording == Nothing <==> usage.requestCount == 0 && usage.documentsSkipped == 0)
      && (recording.Then? ==> Recording(recording, p, settling.Then?))
      && if settling.Then? then Settling(settling, usage.requestCount == 0, ok) else !ok
    ensures ok && (usage.requestCount > 0 || usage.documentsSkipped > 0) ==>
              var row := db.rows[db.own];
              && row.requestCount == usage.requestCount && row.bytesDown == usage.bytesDown
              && row.documentsSkipped == usage.documentsSkipped && row.rest == rest
              && (usage.requestCount > 0 ==> row.reservation == Some(reservation))
              && (usage.requestCount == 0 ==> row.reservation == None && row.estimatedFloor == 0)
              && (usage.requestCount > 0 && usage.bytesDown == 0 ==> row.estimatedFloor == estimatedBytes)
              && (usage.bytesDown > 0 ==> row.estimatedFloor == 0)
    ensures db.plan == [] && !db.contended ==> ok && Length(recording) <= 1 && Length(settling) == 1
  {
    var p := EventOf(db.own, reservation, usage, estimatedBytes, rest);
    var provider := usage.requestCount > 0;
    recording, settling := Nothing, Nothing;
    if !provider && usage.documentsSkipped == 0 {
      ok, settling := FinalizeBudget(db, true, p);
      AppendNothing(settling);
      if db.plan == [] && !db.contended {
        CalmOperation(db.plan, p, true, recording, true, settling, ok);
      }
      return;
    }
    ok, recording := PersistUsageEvent(db, p);
    AppendNothing(recording);
    ghost var recorded := ok;
    if ok {
      ok, settling := FinalizeBudget(db, !provider, p);
    }
    if db.plan == [] && !db.contended {
      CalmOperation(db.plan, p, !provider, recording, recorded, settling, ok);
    }
  }

  /** Later still, when every lost request has had its chance, nothing of that has changed. */
  method Settle(db: Ledger, ghost p: Payload, ghost ok: bool)
    requires db.OnlyEver(p) && db.Consistent(p)
    requires ok ==> (db.status == Released <==> p.requestCount == 0) && (db.status == Finalized <==> p.requestCount > 0)
    modifies db
    ensures db.OnlyEver(p) && db.Consistent(p) && AppendOnly(old(db.rows), db.rows)
    ensures ok ==> (db.status == Released <==> p.requestCount == 0) && (db.status == Finalized <==> p.requestCount > 0)
  {
    db.OthersRun(p);
  }
}
