/** The persistent fail-closed switch of the paid proxy, over a database row whose revisions are written once. */
module ProxyControl {
  import opened Base

  type Revision = int

  datatype Status = Enabled | BillingExhausted | Paused | Unavailable | OtherStatus(name: string)

  datatype Snapshot = Snapshot(allowed: bool, status: Status, reason: string, revision: Option<Revision>, fromDatabase: bool)

  datatype Switch = Switch(snapshot: Snapshot, trip: Option<Revision>)

  /** Every revision ever written, and the current one. */
  datatype Database = Database(written: map<Revision, Status>, latest: Revision)

  datatype ReadOutcome = ReadFails | ReadRow(revision: Revision, reason: string)

  /** A reply may be lost after the write took effect. */
  datatype WriteOutcome = Answered | LostAfterCommit | LostBeforeCommit

  datatype Event =
    | OtherWrites(status: Status)
    | Refresh(read: ReadOutcome)
    | Trip(status: Status, reason: string, write: WriteOutcome)

  datatype World = World(switch: Switch, db: Database)

  const INITIAL := Switch(Snapshot(false, Unavailable, "not_loaded", None, false), None)

  // ----- one step

  function Refreshed(s: Switch, db: Database, read: ReadOutcome): Switch
    requires read.ReadRow? ==> read.revision in db.written
  {
    if read.ReadFails? then s.(snapshot := Snapshot(false, Unavailable, "control_read_failed", s.snapshot.revision, false))
    else
      var revision, status := read.revision, db.written[read.revision];
      if s.snapshot.revision.Some? && revision < s.snapshot.revision.value then s
      else if s.trip.Some? && status == Enabled && revision <= s.trip.value then s
      else
        Switch(Snapshot(status == Enabled, status, read.reason, Some(revision), true),
               if s.trip.Some? && revision > s.trip.value then None else s.trip)
  }

  function UnconfirmedReason(status: Status): string {
    if status == BillingExhausted then "local_billing_trip_unconfirmed" else "local_telemetry_pause_unconfirmed"
  }

  predicate AlreadyTripped(s: Switch, status: Status) {
    s.snapshot.status == status && s.snapshot.fromDatabase
  }

  predicate CasCommits(s: Switch, db: Database, write: WriteOutcome) {
    s.snapshot.revision == Some(db.latest) && write != LostBeforeCommit
  }

  function Tripped(s: Switch, db: Database, status: Status, reason: string, write: WriteOutcome): (Switch, Database) {
    if AlreadyTripped(s, status) then (s, db)
    else
      var base := s.snapshot.revision;
      if base == None then (Switch(Snapshot(false, status, reason, None, false), None), db)
      else if CasCommits(s, db, write) then
        var db' := Database(db.written[db.latest + 1 := status], db.latest + 1);
        if write == Answered then (Switch(Snapshot(false, status, reason, Some(db.latest + 1), true), Some(db.latest + 1)), db')
        else (Switch(Snapshot(false, status, UnconfirmedReason(status), base, false), base), db')
      else (Switch(Snapshot(false, status, UnconfirmedReason(status), base, false), base), db)
  }

  /** Only these two are ever tripped to. */
  predicate IsTrip(status: Status) {
    status == BillingExhausted || status == Paused
  }

  function Step(w: World, e: Event): World {
    match e
    case OtherWrites(status) =>
      w.(db := Database(w.db.written[w.db.latest + 1 := status], w.db.latest + 1))
    case Refresh(read) =>
      if read.ReadRow? && read.revision !in w.db.written then w else w.(switch := Refreshed(w.switch, w.db, read))
    case Trip(status, reason, write) =>
      if !IsTrip(status) then w
      else
        var (s, db) := Tripped(w.switch, w.db, status, reason, write);
        World(s, db)
  }

  function Run(w: World, es: seq<Event>): World {
    if es == [] then w else Step(Run(w, es[..|es| - 1]), es[|es| - 1])
  }

  // ----- the object

  class ProxyControl {
    var snapshot: Snapshot
    var localTripRevision: Option<Revision>

    constructor ()
      ensures Now() == INITIAL
    {
      snapshot := Snapshot(false, Unavailable, "not_loaded", None, false);
      localTripRevision := None;
    }

    ghost function Now(): Switch
      reads this
    {
      Switch(snapshot, localTripRevision)
    }

    /** `row` is the one row read, or nothing when the read or its decoding failed. */
    method Refresh(ghost db: Database, row: Option<(Revision, Status, string)>) returns (r: Snapshot)
      requires row.Some? ==> row.value.0 in db.written && db.written[row.value.0] == row.value.1
      modifies this
      ensures r == snapshot
      ensures Now() == Refreshed(old(Now()), db, if row.Some? then ReadRow(row.value.0, row.value.2) else ReadFails)
      ensures row == None ==>
        !r.allowed && r.status == Unavailable && r.reason == "control_read_failed" && !r.fromDatabase
        && r.revision == old(snapshot).revision && localTripRevision == old(localTripRevision)
      ensures row.Some? && (old(snapshot).revision == None || row.value.0 > old(snapshot).revision.value)
              && (old(localTripRevision) == None || row.value.0 > old(localTripRevision).value || row.value.1 != Enabled) ==>
        r == Snapshot(row.value.1 == Enabled, row.value.1, row.value.2, Some(row.value.0), true)
      ensures row.Some? && old(snapshot).revision.Some? && row.value.0 < old(snapshot).revision.value ==> Now() == old(Now())
      ensures localTripRevision ==
        if row.Some? && old(localTripRevision).Some? && row.value.0 > old(localTripRevision).value
           && (old(snapshot).revision == None || row.value.0 >= old(snapshot).revision.value)
        then None else old(localTripRevision)
    {
      if row == None {
        snapshot := Snapshot(false, Unavailable, "control_read_failed", snapshot.revision, false);
        return snapshot;
      }
      var (revision, status, reason) := row.value;
      if snapshot.revision.Some? && revision < snapshot.revision.value {
        return snapshot;
      }
      if localTripRevision.Some? && status == Enabled && revision <= localTripRevision.value {
        return snapshot;
      }
      if localTripRevision.Some? && revision > localTripRevision.value {
        localTripRevision := None;
      }
      snapshot := Snapshot(status == Enabled, status, reason, Some(revision), true);
      return snapshot;
    }

    /** `answer` is the revision of the single updated row, or nothing when the compare-and-set was not confirmed. */
    method Trip(ghost db: Database, status: Status, reason: string, ghost write: WriteOutcome, answer: Option<Revision>)
      returns (r: Snapshot)
      requires answer == if CasCommits(Now(), db, write) && write == Answered then Some(db.latest + 1) else None
      modifies this
      ensures r == snapshot && Now() == Tripped(old(Now()), db, status, reason, write).0
      ensures old(snapshot).status == status && old(snapshot).fromDatabase ==> Now() == old(Now())
      ensures !(old(snapshot).status == status && old(snapshot).fromDatabase) ==>
        && !r.allowed && r.status == status
        && localTripRevision == r.revision
        && r.revision == (if old(snapshot).revision.Some? && answer.Some? then answer else old(snapshot).revision)
        && (r.fromDatabase <==> old(snapshot).revision.Some? && answer.Some?)
        && r.reason == (if old(snapshot).revision == None || answer.Some? then reason
                        else if status == BillingExhausted then "local_billing_trip_unconfirmed"
                        else "local_telemetry_pause_unconfirmed")
    {
      if snapshot.status == status && snapshot.fromDatabase {
        return snapshot;
      }
      var base := snapshot.revision;
      localTripRevision := base;
      snapshot := Snapshot(false, status, reason, base, false);
      if base == None {
        return snapshot;
      }
      if answer.Some? {
        localTripRevision := answer;
        snapshot := Snapshot(false, status, reason, answer, true);
      } else {
        snapshot := Snapshot(false, status, UnconfirmedReason(status), base, false);
      }
      return snapshot;
    }
  }

  // ----- every reachable state

  ghost predicate Inv(w: World) {
    var s, written := w.switch, w.db.written;
    && w.db.latest in written && (forall r | r in written :: r <= w.db.latest)
    && (s.snapshot.revision.Some? ==> s.snapshot.revision.value in written)
    && (s.trip.Some? ==> s.snapshot.revision == s.trip && !s.snapshot.allowed)
    && (s.snapshot.fromDatabase ==>
          && s.snapshot.revision.Some? && written[s.snapshot.revision.value] == s.snapshot.status
          && (s.snapshot.allowed <==> s.snapshot.status == Enabled))
    && (s.snapshot.allowed ==> s.snapshot.fromDatabase)
  }

  predicate RevisionLeq(a: Option<Revision>, b: Option<Revision>) {
    a == None || (b.Some? && a.value <= b.value)
  }

  lemma StepKeepsInv(w: World, e: Event)
    requires Inv(w)
    ensures Inv(Step(w, e))
    ensures RevisionLeq(w.switch.snapshot.revision, Step(w, e).switch.snapshot.revision)
    ensures forall r | r in w.db.written :: r in Step(w, e).db.written && Step(w, e).db.written[r] == w.db.written[r]
  {
  }

  /** The seen revision never decreases, and a written revision never changes. */
  lemma {:induction false} SeenRevisionNeverDecreases(w: World, es: seq<Event>)
    requires Inv(w)
    ensures Inv(Run(w, es))
    ensures RevisionLeq(w.switch.snapshot.revision, Run(w, es).switch.snapshot.revision)
    ensures forall r | r in w.db.written :: r in Run(w, es).db.written && Run(w, es).db.written[r] == w.db.written[r]
  {
    if es != [] {
      SeenRevisionNeverDecreases(w, es[..|es| - 1]);
      StepKeepsInv(Run(w, es[..|es| - 1]), es[|es| - 1]);
    }
  }

  /** Closed at revision `r`: nothing up to and including `r` can open it. */
  ghost predicate ClosedAt(w: World, r: Revision) {
    var s := w.switch;
    && s.snapshot.revision.Some? && s.snapshot.revision.value >= r
    && (s.snapshot.allowed ==> s.snapshot.revision.value > r)
    && (s.snapshot.revision.value == r && s.trip == None ==> r in w.db.written && w.db.written[r] != Enabled)
  }

  lemma StepStaysClosed(w: World, e: Event, r: Revision)
    requires Inv(w) && ClosedAt(w, r)
    ensures ClosedAt(Step(w, e), r)
    ensures !w.switch.snapshot.allowed && Step(w, e).switch.snapshot.allowed ==>
      e.Refresh? && e.read.ReadRow? && e.read.revision > r && w.db.written[e.read.revision] == Enabled
  {
    StepKeepsInv(w, e);
  }

  lemma TripCloses(w: World, status: Status, reason: string, write: WriteOutcome)
    requires Inv(w) && (status == BillingExhausted || status == Paused) && w.switch.snapshot.revision.Some?
    ensures var w' := Step(w, Trip(status, reason, write));
      && !w'.switch.snapshot.allowed && w'.switch.snapshot.revision.Some?
      && ClosedAt(w', w'.switch.snapshot.revision.value)
      && w'.switch.snapshot.revision.value >= w.switch.snapshot.revision.value
  {
  }

  lemma {:induction false} RunStaysClosed(w: World, es: seq<Event>, r: Revision)
    requires Inv(w) && ClosedAt(w, r)
    ensures ClosedAt(Run(w, es), r) && Inv(Run(w, es))
  {
    SeenRevisionNeverDecreases(w, es);
    if es != [] {
      var before := es[..|es| - 1];
      RunStaysClosed(w, before, r);
      StepStaysClosed(Run(w, before), es[|es| - 1], r);
    }
  }

  /** Fail closed: after a trip with a known revision, in every later state traffic is allowed only on a row read from
      the database as `enabled` at a revision strictly above the tripped one. */
  lemma TrippedStaysClosed(w: World, status: Status, reason: string, write: WriteOutcome, es: seq<Event>)
    requires Inv(w) && (status == BillingExhausted || status == Paused) && w.switch.snapshot.revision.Some?
    ensures var w1 := Step(w, Trip(status, reason, write)); var s := Run(w1, es).switch.snapshot;
      s.allowed ==>
        && s.fromDatabase && s.status == Enabled && s.revision.Some?
        && s.revision.value > w1.switch.snapshot.revision.value
        && s.revision.value in Run(w1, es).db.written && Run(w1, es).db.written[s.revision.value] == Enabled
  {
    var w1 := Step(w, Trip(status, reason, write));
    StepKeepsInv(w, Trip(status, reason, write));
    TripCloses(w, status, reason, write);
    RunStaysClosed(w1, es, w1.switch.snapshot.revision.value);
  }

  /** A compare-and-set that took effect closes the next revision too, even if its reply was lost. */
  lemma LostReplyClosesNextRevision(w: World, status: Status, reason: string, es: seq<Event>)
    requires Inv(w) && (status == BillingExhausted || status == Paused) && !AlreadyTripped(w.switch, status)
    requires w.switch.snapshot.revision == Some(w.db.latest)
    ensures var w1 := Step(w, Trip(status, reason, LostAfterCommit)); var s := Run(w1, es).switch.snapshot;
      s.allowed ==> s.revision.Some? && s.revision.value > w.db.latest + 1
  {
    var w1 := Step(w, Trip(status, reason, LostAfterCommit));
    StepKeepsInv(w, Trip(status, reason, LostAfterCommit));
    TrippedStaysClosed(w, status, reason, LostAfterCommit, es);
    SeenRevisionNeverDecreases(w1, es);
  }

  /** When exactly an unconfirmed trip is undone by the next `enabled` row: if no revision was known, always;
      otherwise only by a later revision. */
  lemma NextReadOpensIff(w: World, status: Status, reason: string, revision: Revision, why: string)
    requires Inv(w) && (status == BillingExhausted || status == Paused) && !AlreadyTripped(w.switch, status)
    requires revision in w.db.written && w.db.written[revision] == Enabled
    ensures var w2 := Step(Step(w, Trip(status, reason, LostBeforeCommit)), Refresh(ReadRow(revision, why)));
      w2.switch.snapshot.allowed
      <==> w.switch.snapshot.revision == None || revision > w.switch.snapshot.revision.value
  {
    StepKeepsInv(w, Trip(status, reason, LostBeforeCommit));
  }

  // ----- what opens the switch

  /** A failed read closes it, at the revision seen before. */
  lemma FailedReadCloses(w: World)
    ensures var s := Step(w, Refresh(ReadFails)).switch;
      && !s.snapshot.allowed && !s.snapshot.fromDatabase && s.snapshot.revision == w.switch.snapshot.revision
      && s.trip == w.switch.trip
  {
  }

  /** When exactly a row read leaves it open: an older row changes nothing; any other must say `enabled`, at a revision not
      closed by a trip. */
  lemma RowOpensIff(w: World, revision: Revision, why: string)
    requires Inv(w) && revision in w.db.written
    ensures var s, seen := Step(w, Refresh(ReadRow(revision, why))).switch.snapshot, w.switch.snapshot.revision;
      s.allowed <==>
        if seen.Some? && revision < seen.value then w.switch.snapshot.allowed
        else w.db.written[revision] == Enabled && (w.switch.trip.Some? ==> revision > w.switch.trip.value)
  {
  }

  /** A row read after the seen revision is taken over as it is. */
  lemma NewRowIsSeen(w: World, revision: Revision, why: string)
    requires Inv(w) && revision in w.db.written
    requires w.switch.snapshot.revision.Some? ==> revision > w.switch.snapshot.revision.value
    ensures Step(w, Refresh(ReadRow(revision, why))).switch
         == Switch(Snapshot(w.db.written[revision] == Enabled, w.db.written[revision], why, Some(revision), true), None)
  {
  }

  /** Nothing that closes the switch: no failed read, no trip, no row of another state at the seen revision. */
  predicate LeavesOpen(w: World, e: Event) {
    match e
    case OtherWrites(_) => true
    case Trip(status, _, _) => !IsTrip(status)
    case Refresh(read) =>
      read.ReadRow? && (read.revision in w.db.written && w.switch.snapshot.revision.Some? ==> read.revision <= w.switch.snapshot.revision.value)
  }

  /** The last read that counted was answered by this row, and it is enabled. */
  ghost predicate OpenedAt(w: World, es: seq<Event>, k: nat) {
    && k < |es| && es[k].Refresh? && es[k].read.ReadRow?
    && Run(w, es).switch.snapshot.revision == Some(es[k].read.revision)
    && es[k].read.revision in Run(w, es[..k]).db.written && Run(w, es[..k]).db.written[es[k].read.revision] == Enabled
    && forall j | k < j < |es| :: LeavesOpen(Run(w, es[..j]), es[j])
  }

  lemma StaysOpened(w: World, es: seq<Event>, k: nat)
    requires es != [] && OpenedAt(w, es[..|es| - 1], k)
    requires var v := Run(w, es[..|es| - 1]);
      LeavesOpen(v, es[|es| - 1]) && Step(v, es[|es| - 1]).switch.snapshot == v.switch.snapshot
    ensures OpenedAt(w, es, k)
  {
    var before := es[..|es| - 1];
    assert before[..k] == es[..k];
    forall j | k < j < |es| ensures LeavesOpen(Run(w, es[..j]), es[j]) {
      if j < |before| {
        assert es[..j] == before[..j];
      }
    }
  }

  /** What one step must have been if the switch is open after it. */
  lemma OpenAfterStep(v: World, e: Event)
    requires Inv(v) && Step(v, e).switch.snapshot.allowed
    ensures || (v.switch.snapshot.allowed && Step(v, e).switch.snapshot == v.switch.snapshot && LeavesOpen(v, e))
            || (e.Refresh? && e.read.ReadRow? && Step(v, e).switch.snapshot.revision == Some(e.read.revision)
                && e.read.revision in v.db.written && v.db.written[e.read.revision] == Enabled)
  {
  }

  /** Paid traffic is allowed only if the last read that counted found an enabled row at the revision now seen, and since
      then no read has failed and nothing was tripped. */
  lemma {:induction false} AllowedMeansLastRead(w: World, es: seq<Event>)
    requires Inv(w) && !w.switch.snapshot.allowed && Run(w, es).switch.snapshot.allowed
    ensures exists k: nat :: OpenedAt(w, es, k)
  {
    var n := |es| - 1;
    SeenRevisionNeverDecreases(w, es[..n]);
    OpenAfterStep(Run(w, es[..n]), es[n]);
    if es[n].Refresh? && es[n].read.ReadRow? && Run(w, es).switch.snapshot.revision == Some(es[n].read.revision)
       && es[n].read.revision in Run(w, es[..n]).db.written && Run(w, es[..n]).db.written[es[n].read.revision] == Enabled {
      assert OpenedAt(w, es, n);
    } else {
      AllowedMeansLastRead(w, es[..n]);
      var k: nat :| OpenedAt(w, es[..n], k);
      StaysOpened(w, es, k);
    }
  }

  /** A trip that is answered closes the row itself: whoever reads it next is closed too. */
  lemma AnsweredTripClosesEveryone(w: World, status: Status, reason: string, other: Switch, why: string)
    requires Inv(w) && (status == BillingExhausted || status == Paused) && !AlreadyTripped(w.switch, status)
    requires w.switch.snapshot.revision == Some(w.db.latest)
    requires other.snapshot.revision.Some? ==> other.snapshot.revision.value <= w.db.latest
    ensures var w' := Step(w, Trip(status, reason, Answered));
      && w'.db.latest == w.db.latest + 1 && w'.db.written[w'.db.latest] == status
      && !Step(World(other, w'.db), Refresh(ReadRow(w'.db.latest, why))).switch.snapshot.allowed
  {
  }

  /** A row that changed since it was seen is not overwritten; the switch is closed here all the same. */
  lemma StaleTripWritesNothing(w: World, status: Status, reason: string, write: WriteOutcome)
    requires Inv(w) && (status == BillingExhausted || status == Paused) && w.switch.snapshot.revision != Some(w.db.latest)
    ensures var w' := Step(w, Trip(status, reason, write));
      w'.db == w.db && !w'.switch.snapshot.allowed && w'.switch.snapshot.status == status
  {
  }

  /** A compare-and-set that never arrived, or came for an older revision, writes nothing; one that arrived and was not
      answered has written the next revision all the same. */
  lemma LostTripWrites(w: World, status: Status, reason: string, write: WriteOutcome)
    requires Inv(w) && (status == BillingExhausted || status == Paused) && !AlreadyTripped(w.switch, status)
    ensures var db := Step(w, Trip(status, reason, write)).db;
      if write == LostBeforeCommit || w.switch.snapshot.revision != Some(w.db.latest) then db == w.db
      else db.latest == w.db.latest + 1 && db.written == w.db.written[w.db.latest + 1 := status]
  {
  }

  lemma RunAppends(w: World, es: seq<Event>, e: Event)
    ensures Run(w, []) == w && Run(w, es + [e]) == Step(Run(w, es), e)
  {
    assert (es + [e])[..|es|] == es;
  }
}
