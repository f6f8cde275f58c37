/**
  Joining the auxiliaries of one admitted operation (`_finish_auxiliaries`, `track_auxiliary`).

  Whatever else runs on the event loop while the drain awaits is the `script`: children may
  register further futures, futures settle, the drain itself may be cancelled.  The drain may
  wait for ever, so a call that uses up its script without finishing says so.
*/
module Drain {
  import opened Base

  type Future = nat

  datatype Outcome = Fine | Failed | Cancelled

  datatype Happening =
    | Register(f: Future)
    | Settle(f: Future, outcome: Outcome)
    | CancelWaiter

  /** What the rest of the program alone makes of the operation: registrations and settled futures. */
  datatype World = World(auxiliaries: set<Future>, settled: map<Future, Outcome>, uncertain: bool)

  function Tracked(w: World, f: Future): World {
    if f in w.settled && w.settled[f] == Cancelled then w.(uncertain := true)
    else w.(auxiliaries := w.auxiliaries + {f})
  }

  function After(w: World, h: Happening): World {
    match h
    case Register(f) => Tracked(w, f)
    case Settle(f, outcome) => if f in w.settled then w else w.(settled := w.settled[f := outcome])
    case CancelWaiter => w
  }

  function AfterAll(w: World, hs: seq<Happening>): World {
    if hs == [] then w else After(AfterAll(w, hs[..|hs| - 1]), hs[|hs| - 1])
  }

  ghost predicate AllSettled(w: World) {
    forall f | f in w.auxiliaries :: f in w.settled
  }

  ghost predicate SomeUnsafe(w: World) {
    exists f :: f in w.auxiliaries && f in w.settled && w.settled[f] != Fine
  }

  class Operation {
    var auxiliaries: set<Future>
    var settled: map<Future, Outcome>
    var uncertain: bool
    var closed: bool

    constructor ()
      ensures auxiliaries == {} && settled == map[] && !uncertain && !closed
    {
      auxiliaries, settled, uncertain, closed := {}, map[], false, false;
    }

    ghost function Now(): World
      reads this
    {
      World(auxiliaries, settled, uncertain)
    }

    /** A closed operation refuses and poisons the process, before any work can be created. */
    method TrackAuxiliary(f: Future) returns (accepted: bool)
      modifies this`auxiliaries, this`uncertain
      ensures accepted == (!old(closed) && !(f in settled && settled[f] == Cancelled))
      ensures !old(closed) ==> Now() == Tracked(old(Now()), f)
      ensures accepted ==> f in auxiliaries
      ensures !accepted ==> auxiliaries == old(auxiliaries) && uncertain
    {
      if closed || (f in settled && settled[f] == Cancelled) {
        uncertain := true;
        return false;
      }
      auxiliaries := auxiliaries + {f};
      return true;
    }

    method Happen(h: Happening)
      requires !closed
      modifies this`auxiliaries, this`uncertain, this`settled
      ensures Now() == After(old(Now()), h)
    {
      match h {
        case Register(f) => var _ := TrackAuxiliary(f);
        case Settle(f, outcome) =>
          if f !in settled {
            settled := settled[f := outcome];
          }
        case CancelWaiter =>
      }
    }

    /** The loop invariant: nothing observed is unsettled or forgotten, nothing is marked without a reason. */
    ghost predicate Joined(w: World, observed: set<Future>, seen: seq<Happening>, cancelled: bool)
      reads this
    {
      && auxiliaries == w.auxiliaries && settled == w.settled
      && (forall f | f in observed :: f in auxiliaries && f in settled && (settled[f] != Fine ==> uncertain))
      && (w.uncertain ==> uncertain)
      && (CancelWaiter in seen ==> cancelled)
      && (cancelled ==> uncertain)
      && (uncertain ==> w.uncertain || SomeUnsafe(w) || CancelWaiter in seen)
    }

    /** One resumption of the awaiting drain: `h` happened, and the shield may have raised. */
    method Resume(future: Future, h: Happening, wasCancelled: bool,
                  ghost w: World, ghost observed: set<Future>, ghost seen: seq<Happening>) returns (cancelled: bool)
      requires !closed && Joined(w, observed, seen, wasCancelled)
      requires future in auxiliaries && future !in settled
      modifies this`auxiliaries, this`uncertain, this`settled
      ensures Joined(After(w, h), observed, seen + [h], cancelled)
    {
      Happen(h);
      cancelled := wasCancelled;
      if h == CancelWaiter {
        uncertain, cancelled := true, true;
      } else if future in settled && settled[future] == Cancelled {
        // The awaited shield raises the cancellation of the future itself.
        uncertain, cancelled := true, true;
      } else if future in settled && settled[future] == Failed {
        uncertain := true;
      }
    }

    /** Wait for one future; `done` is false when the script runs out first. */
    method Join(future: Future, script: seq<Happening>, from: nat, wasCancelled: bool,
                ghost start: World, ghost observed: set<Future>) returns (done: bool, cancelled: bool, consumed: nat)
      requires !closed && from <= |script| && future in auxiliaries
      requires Joined(AfterAll(start, script[..from]), observed, script[..from], wasCancelled)
      modifies this`auxiliaries, this`uncertain, this`settled
      ensures from <= consumed <= |script|
      ensures future in auxiliaries && old(auxiliaries) <= auxiliaries
      ensures consumed == from ==> auxiliaries == old(auxiliaries)
      ensures var w := AfterAll(start, script[..consumed]);
        if done then Joined(w, observed + {future}, script[..consumed], cancelled)
        else Joined(w, observed, script[..consumed], cancelled) && consumed == |script| && future !in settled
    {
      cancelled, consumed := wasCancelled, from;
      while future !in settled
        invariant from <= consumed <= |script|
        invariant future in auxiliaries && old(auxiliaries) <= auxiliaries
        invariant consumed == from ==> auxiliaries == old(auxiliaries)
        invariant Joined(AfterAll(start, script[..consumed]), observed, script[..consumed], cancelled)
        decreases |script| - consumed
      {
        if consumed == |script| {
          return false, cancelled, consumed;
        }
        var h := script[consumed];
        ghost var seen := script[..consumed];
        assert script[..consumed + 1] == seen + [h] && (seen + [h])[..consumed] == seen;
        cancelled := Resume(future, h, cancelled, AfterAll(start, seen), observed, seen);
        consumed := consumed + 1;
      }
      if settled[future] != Fine {
        uncertain := true;
      }
      done := true;
    }

    /**
      The drain and the closing that follows it without a suspension point.  When it finishes, everything
      ever registered is done, children of children included; and the process is then uncertain exactly when
      it already was, something registered did not end well, or the drain was cancelled.  When it does not
      finish, it is still waiting for a registered future.
    */
    method FinishAuxiliaries(script: seq<Happening>) returns (finished: bool, cancelled: bool, consumed: nat)
      requires !closed
      modifies this
      ensures consumed <= |script| && closed == finished
      ensures var w := AfterAll(old(Now()), script[..consumed]);
        && auxiliaries == w.auxiliaries && settled == w.settled
        && (finished ==> AllSettled(w))
        && (!finished ==> consumed == |script| && !AllSettled(w))
        && (finished ==> (uncertain <==> w.uncertain || SomeUnsafe(w) || CancelWaiter in script[..consumed]))
      ensures CancelWaiter in script[..consumed] ==> cancelled
      ensures cancelled ==> uncertain
    {
      cancelled, consumed := false, 0;
      var observed: set<Future> := {};
      ghost var start := Now();
      while auxiliaries - observed != {}
        invariant consumed <= |script| && !closed
        invariant Joined(AfterAll(start, script[..consumed]), observed, script[..consumed], cancelled)
        decreases |script| - consumed, auxiliaries - observed
      {
        var pending := auxiliaries - observed;
        var todo := pending;
        ghost var consumed0, auxiliaries0, observed0 := consumed, auxiliaries, observed;
        while todo != {}
          invariant consumed0 <= consumed <= |script| && !closed
          invariant Joined(AfterAll(start, script[..consumed]), observed, script[..consumed], cancelled)
          invariant pending - todo <= observed && observed0 <= observed && todo <= pending <= auxiliaries
          invariant consumed == consumed0 ==> auxiliaries == auxiliaries0
          decreases todo
        {
          var future :| future in todo;
          var done;
          done, cancelled, consumed := Join(future, script, consumed, cancelled, start, observed);
          if !done {
            return false, cancelled, consumed;
          }
          observed := observed + {future};
          todo := todo - {future};
        }
        assert pending <= observed && pending != {};
      }
      ghost var left := auxiliaries - observed;
      forall f | f in auxiliaries ensures f in observed {
        assert f in left || f in observed;
      }
      closed := true;
      finished := true;
    }
  }

  /** Nothing registered is ever dropped and nothing settled ever changes, however the program goes on. */
  lemma {:induction false} OnlyGrows(w: World, hs: seq<Happening>)
    ensures var w' := AfterAll(w, hs);
      && w.auxiliaries <= w'.auxiliaries && (w.uncertain ==> w'.uncertain)
      && (forall f | f in w.settled :: f in w'.settled && w'.settled[f] == w.settled[f])
      && (forall i | 0 <= i < |hs| && hs[i].Register? :: hs[i].f in w'.auxiliaries || w'.uncertain)
  {
    if hs != [] {
      OnlyGrows(w, hs[..|hs| - 1]);
    }
  }
}
