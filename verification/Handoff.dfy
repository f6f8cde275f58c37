/**
  The checkout/record handoff as a crash-recoverable protocol.

  A run performs a fixed order of durable writes, each atomic; the machine may die before any of
  them, or inside an atomic file write, which then leaves its temporary behind.  Hashes stand for
  what they hash.  Each run finds its own `Env`; a check that fails between two writes of a run
  stops it there, which is a crash that tears nothing.
*/
module Handoff {
  import opened Base

  type Sha = nat
  type OperationId = nat

  /** The bootstrap record; only its `sha` distinguishes the old text from the new one. */
  datatype Record = Record(sha: Sha, op: OperationId, adopted: bool, rest: string)

  datatype Receipt = Receipt(
    committed: bool, op: OperationId, identity: string, previous: Sha, target: Sha,
    before: Record, after: Record, snapshot: nat, backup: string)

  datatype Disk = Disk(
    checkout: Sha,
    record: Record,
    directory: bool,            // the receipt directory exists
    original: Option<Record>,   // its `record.original`
    receipt: Option<Receipt>,   // its `handoff.json`
    temporary: bool)            // some other name is left in it

  datatype Args = Args(previous: Sha, target: Sha, op: OperationId, identity: string, backup: string)

  /** The hold, the recovery evidence, the trees and the immutable snapshot, as every check of one run finds them. */
  datatype Env = Env(trusted: bool, hold: bool, recovery: bool, snapshot: nat)

  datatype Write =
    | MakeDirectory
    | SaveOriginal(text: Record)
    | SaveReceipt(receipt: Receipt)
    | SwitchCheckout(sha: Sha)
    | SaveRecord(text: Record)

  function Apply(d: Disk, w: Write): Disk {
    match w
    case MakeDirectory => d.(directory := true)
    case SaveOriginal(t) => d.(original := Some(t))
    case SaveReceipt(r) => d.(receipt := Some(r))
    case SwitchCheckout(sha) => d.(checkout := sha)
    case SaveRecord(t) => d.(record := t)
  }

  function ApplyAll(d: Disk, ws: seq<Write>): Disk
    decreases |ws|
  {
    if ws == [] then d else ApplyAll(Apply(d, ws[0]), ws[1..])
  }

  function Prepared(a: Args, env: Env, text: Record): Receipt {
    Receipt(false, a.op, a.identity, a.previous, a.target, text, text.(sha := a.target), env.snapshot, a.backup)
  }

  predicate RecordIs(r: Record, sha: Sha, a: Args) {
    r.sha == sha && r.op == a.op && r.adopted
  }

  /** The checks made before the first write, when there is no receipt yet. */
  predicate MayPrepare(d: Disk, a: Args, env: Env) {
    && d.checkout == a.previous && RecordIs(d.record, a.previous, a)
    && (d.directory ==> !d.temporary)
    && (d.original.Some? ==> d.original.value == d.record)
  }

  /** The checks on an existing receipt. */
  predicate MayResume(d: Disk, a: Args, env: Env) {
    && d.receipt.Some? && d.original.Some?
    && var r, original := d.receipt.value, d.original.value;
    && r.(committed := false) == Prepared(a, env, original)
    && RecordIs(original, a.previous, a)
    && (d.record == original || d.record == r.after)
    && (d.checkout == a.previous ==> d.record == original)
    && (r.committed ==> d.checkout == a.target && d.record == r.after)
  }

  predicate MayRun(d: Disk, a: Args, env: Env) {
    && env.trusted && env.hold && env.recovery
    && (d.checkout == a.previous || d.checkout == a.target)
    && if d.receipt.Some? then MayResume(d, a, env) else MayPrepare(d, a, env)
  }

  function PreparePart(d: Disk, receipt: Receipt): seq<Write> {
    if d.receipt.Some? then [] else
      (if d.directory then [] else [MakeDirectory])
      + (if d.original.Some? then [] else [SaveOriginal(d.record)])
      + [SaveReceipt(receipt)]
  }

  /** The writes a whole run makes from `d`, in order. */
  function Plan(d: Disk, a: Args, env: Env): seq<Write> {
    if !MayRun(d, a, env) then []
    else if d.receipt.Some? && d.receipt.value.committed then []
    else
      var receipt := if d.receipt.Some? then d.receipt.value else Prepared(a, env, d.record);
      PreparePart(d, receipt)
      + (if d.checkout == a.previous then [SwitchCheckout(a.target)] else [])
      + [SaveRecord(receipt.after), SaveReceipt(receipt.(committed := true))]
  }

  /** How a run is cut short: after `writes` of its writes, perhaps inside the next one. */
  datatype Crash = Crash(writes: nat, torn: bool)

  predicate LeavesTemporary(ws: seq<Write>, c: Crash) {
    c.torn && c.writes < |ws| && (ws[c.writes].SaveOriginal? || ws[c.writes].SaveReceipt?)
  }

  function CrashRun(d: Disk, a: Args, env: Env, c: Crash): Disk {
    Cut(d, Plan(d, a, env), c)
  }

  function Cut(d: Disk, ws: seq<Write>, c: Crash): Disk {
    if c.writes >= |ws| then ApplyAll(d, ws)
    else
      var d' := ApplyAll(d, ws[..c.writes]);
      if LeavesTemporary(ws, c) then d'.(temporary := true) else d'
  }

  function WholeRun(d: Disk, a: Args, env: Env): Disk {
    ApplyAll(d, Plan(d, a, env))
  }

  /** One run: what its checks find, and where it is cut short. */
  datatype Attempt = Attempt(env: Env, crash: Crash)

  function CrashRuns(d: Disk, a: Args, ts: seq<Attempt>): Disk {
    if ts == [] then d
    else CrashRun(CrashRuns(d, a, ts[..|ts| - 1]), a, ts[|ts| - 1].env, ts[|ts| - 1].crash)
  }

  predicate Clean(ts: seq<Attempt>) {
    forall t | t in ts :: !t.crash.torn
  }

  /** The host before the handoff was ever tried. */
  predicate Untouched(d: Disk, a: Args) {
    && d.checkout == a.previous && RecordIs(d.record, a.previous, a)
    && !d.directory && d.original == None && d.receipt == None && !d.temporary
  }

  predicate Committed(d: Disk, a: Args, r0: Record) {
    && d.checkout == a.target && d.record == r0.(sha := a.target)
    && d.receipt.Some? && d.receipt.value.committed
  }

  // ----- what every crash leaves behind

  ghost predicate Recoverable(d: Disk, a: Args, env: Env, r0: Record) {
    && RecordIs(r0, a.previous, a)
    && (d.checkout == a.previous || d.checkout == a.target)
    && (d.record == r0 || d.record == r0.(sha := a.target))
    && (d.checkout == a.previous ==> d.record == r0)
    && (d.original.Some? ==> d.original.value == r0)
    && (d.original.Some? || d.receipt.Some? || d.temporary ==> d.directory)
    && (d.receipt == None ==> d.checkout == a.previous)
    && (d.receipt.Some? ==>
         && d.original.Some? && d.receipt.value.(committed := false) == Prepared(a, env, r0)
         && (d.receipt.value.committed ==> d.checkout == a.target && d.record == r0.(sha := a.target)))
  }

  /** What the next write must find for the host to stay recoverable after it. */
  ghost predicate WriteInOrder(d: Disk, w: Write, a: Args, env: Env, r0: Record) {
    match w
    case MakeDirectory => true
    case SaveOriginal(t) => d.directory && t == r0
    case SaveReceipt(r) =>
      && d.original.Some? && r.(committed := false) == Prepared(a, env, r0)
      && (r.committed ==> d.checkout == a.target && d.record == r0.(sha := a.target))
    case SwitchCheckout(sha) => sha == a.target && d.receipt.Some? && !d.receipt.value.committed
    case SaveRecord(t) => d.checkout == a.target && t == r0.(sha := a.target) && d.receipt.Some? && !d.receipt.value.committed
  }

  ghost predicate InOrder(d: Disk, ws: seq<Write>, a: Args, env: Env, r0: Record)
    decreases |ws|
  {
    ws == [] || (WriteInOrder(d, ws[0], a, env, r0) && InOrder(Apply(d, ws[0]), ws[1..], a, env, r0))
  }

  lemma {:induction false} InOrderKeeps(d: Disk, ws: seq<Write>, k: nat, a: Args, env: Env, r0: Record)
    requires a.previous != a.target && Recoverable(d, a, env, r0) && InOrder(d, ws, a, env, r0) && k <= |ws|
    ensures Recoverable(ApplyAll(d, ws[..k]), a, env, r0)
    ensures k < |ws| && (ws[k].SaveOriginal? || ws[k].SaveReceipt?) ==> ApplyAll(d, ws[..k]).directory
    decreases |ws|
  {
    if k > 0 {
      assert Recoverable(Apply(d, ws[0]), a, env, r0);
      InOrderKeeps(Apply(d, ws[0]), ws[1..], k - 1, a, env, r0);
      assert ws[..k][1..] == ws[1..][..k - 1];
    }
  }

  lemma {:induction false} InOrderConcat(d: Disk, xs: seq<Write>, ys: seq<Write>, a: Args, env: Env, r0: Record)
    requires InOrder(d, xs, a, env, r0) && InOrder(ApplyAll(d, xs), ys, a, env, r0)
    ensures InOrder(d, xs + ys, a, env, r0)
    ensures ApplyAll(d, xs + ys) == ApplyAll(ApplyAll(d, xs), ys)
    decreases |xs|
  {
    if xs == [] {
      assert xs + ys == ys;
    } else {
      InOrderConcat(Apply(d, xs[0]), xs[1..], ys, a, env, r0);
      assert (xs + ys)[1..] == xs[1..] + ys;
    }
  }

  lemma ApplyTwo(d: Disk, x: Write, y: Write)
    ensures ApplyAll(d, [x, y]) == Apply(Apply(d, x), y)
  {
    assert [x, y][1..] == [y] && [y][1..] == [];
    assert ApplyAll(Apply(d, x), [y]) == ApplyAll(Apply(Apply(d, x), y), []);
  }

  lemma PrepareInOrder(d: Disk, a: Args, env: Env, r0: Record)
    requires a.previous != a.target && Recoverable(d, a, env, r0) && (d.receipt.Some? ==> !d.receipt.value.committed)
    ensures var ws := PreparePart(d, Prepared(a, env, r0));
      InOrder(d, ws, a, env, r0)
      && ApplyAll(d, ws) == d.(directory := true, original := Some(r0), receipt := Some(Prepared(a, env, r0)))
  {
    if d.receipt == None {
      var r := Prepared(a, env, r0);
      var mk := if d.directory then [] else [MakeDirectory];
      var save := if d.original.Some? then [] else [SaveOriginal(r0)];
      var d1 := d.(directory := true);
      assert ApplyAll(d, mk) == d1 && InOrder(d, mk, a, env, r0) by { if !d.directory { assert mk[1..] == []; } }
      var d2 := d1.(original := Some(r0));
      assert ApplyAll(d1, save) == d2 && InOrder(d1, save, a, env, r0) by { if d.original == None { assert save[1..] == []; } }
      assert ApplyAll(d2, [SaveReceipt(r)]) == d2.(receipt := Some(r)) && InOrder(d2, [SaveReceipt(r)], a, env, r0) by {
        assert [SaveReceipt(r)][1..] == [];
      }
      InOrderConcat(d, mk, save, a, env, r0);
      InOrderConcat(d, mk + save, [SaveReceipt(r)], a, env, r0);
    }
  }

  lemma CommitInOrder(d: Disk, a: Args, env: Env, r0: Record)
    requires a.previous != a.target && Recoverable(d, a, env, r0) && d.receipt.Some? && !d.receipt.value.committed
    ensures var r := d.receipt.value;
      var switch := if d.checkout == a.previous then [SwitchCheckout(a.target)] else [];
      var ws := switch + [SaveRecord(r.after), SaveReceipt(r.(committed := true))];
      InOrder(d, ws, a, env, r0)
      && ApplyAll(d, ws) == d.(checkout := a.target, record := r.after, receipt := Some(r.(committed := true)))
  {
    var r := d.receipt.value;
    var switch := if d.checkout == a.previous then [SwitchCheckout(a.target)] else [];
    var d1 := d.(checkout := a.target);
    assert ApplyAll(d, switch) == d1 && InOrder(d, switch, a, env, r0) by {
      if d.checkout == a.previous { assert switch[1..] == []; }
    }
    var last := [SaveRecord(r.after), SaveReceipt(r.(committed := true))];
    assert last[1..] == [SaveReceipt(r.(committed := true))] && last[1..][1..] == [];
    ApplyTwo(d1, last[0], last[1]);
    InOrderConcat(d, switch, last, a, env, r0);
  }

  /** The plan of a run from a recoverable host keeps every order constraint and, if not empty, ends committed. */
  lemma PlanInOrder(d: Disk, a: Args, env: Env, r0: Record)
    requires a.previous != a.target && Recoverable(d, a, env, r0)
    ensures InOrder(d, Plan(d, a, env), a, env, r0)
    ensures MayRun(d, a, env) ==> Committed(WholeRun(d, a, env), a, r0)
    ensures !MayRun(d, a, env) ==> WholeRun(d, a, env) == d
  {
    if MayRun(d, a, env) && !(d.receipt.Some? && d.receipt.value.committed) {
      var r := Prepared(a, env, r0);
      var d1 := d.(directory := true, original := Some(r0), receipt := Some(r));
      PrepareInOrder(d, a, env, r0);
      CommitInOrder(d1, a, env, r0);
      var switch := if d.checkout == a.previous then [SwitchCheckout(a.target)] else [];
      var last := [SaveRecord(r.after), SaveReceipt(r.(committed := true))];
      InOrderConcat(d, PreparePart(d, r), switch + last, a, env, r0);
      assert Plan(d, a, env) == PreparePart(d, r) + (switch + last);
    }
  }

  /** Nothing that is there already is written again: not the directory, the original or the switched checkout, and what
      is written of the receipt comes after the original. */
  lemma NothingIsWrittenTwice(d: Disk, a: Args, env: Env)
    ensures forall w | w in Plan(d, a, env) ::
      && (w.MakeDirectory? ==> !d.directory && d.receipt.None?)
      && (w.SaveOriginal? ==> d.original.None? && d.receipt.None? && w.text == d.record)
      && (w.SwitchCheckout? ==> d.checkout == a.previous && w.sha == a.target)
      && (w.SaveReceipt? && !w.receipt.committed ==> d.receipt.None?)
      && !(d.receipt.Some? && d.receipt.value.committed)
  {
    var r := if d.receipt.Some? then d.receipt.value else Prepared(a, env, d.record);
    forall w | w in Plan(d, a, env) ensures w in PreparePart(d, r) || (w == SwitchCheckout(a.target) && d.checkout == a.previous)
                                            || w == SaveRecord(r.after) || w == SaveReceipt(r.(committed := true))
    {
    }
  }

  lemma CrashKeepsRecoverable(d: Disk, a: Args, env: Env, r0: Record, c: Crash)
    requires a.previous != a.target && Recoverable(d, a, env, r0)
    ensures Recoverable(CrashRun(d, a, env, c), a, env, r0)
    ensures !c.torn && !d.temporary ==> !CrashRun(d, a, env, c).temporary
  {
    var ws := Plan(d, a, env);
    PlanInOrder(d, a, env, r0);
    var k := if c.writes < |ws| then c.writes else |ws|;
    InOrderKeeps(d, ws, k, a, env, r0);
    assert ws[..|ws|] == ws;
    TemporaryUntouched(d, ws[..k]);
  }

  lemma {:induction false} TemporaryUntouched(d: Disk, ws: seq<Write>)
    ensures ApplyAll(d, ws).temporary == d.temporary
    decreases |ws|
  {
    if ws != [] {
      TemporaryUntouched(Apply(d, ws[0]), ws[1..]);
    }
  }

  /** Recoverable under the snapshot of whichever run wrote the receipt. */
  ghost predicate Recovering(d: Disk, a: Args, r0: Record) {
    exists env :: Recoverable(d, a, env, r0)
  }

  /** A run under an environment of its own either writes nothing or finds the host recoverable under it. */
  lemma RunsOrRefuses(d: Disk, a: Args, env: Env, r0: Record)
    requires Recovering(d, a, r0)
    ensures Recoverable(d, a, env, r0) || Plan(d, a, env) == []
    ensures MayRun(d, a, env) ==> Recoverable(d, a, env, r0)
  {
    var s :| Recoverable(d, a, s, r0);
  }

  lemma AttemptKeepsRecovering(d: Disk, a: Args, t: Attempt, r0: Record)
    requires a.previous != a.target && Recovering(d, a, r0)
    ensures Recovering(CrashRun(d, a, t.env, t.crash), a, r0)
    ensures !t.crash.torn && !d.temporary ==> !CrashRun(d, a, t.env, t.crash).temporary
  {
    RunsOrRefuses(d, a, t.env, r0);
    if Recoverable(d, a, t.env, r0) {
      CrashKeepsRecoverable(d, a, t.env, r0, t.crash);
    }
  }

  // ----- the main results

  /** After any number of runs cut short anywhere, whatever hold, evidence and snapshot each of them finds:
      old/old, new/old or new/new, never old with new. */
  lemma {:induction false} OnlyThreePairs(d: Disk, a: Args, ts: seq<Attempt>)
    requires a.previous != a.target && Untouched(d, a)
    ensures var d' := CrashRuns(d, a, ts);
      && Recovering(d', a, d.record)
      && var old_, new_ := d.record, d.record.(sha := a.target);
         (d'.checkout, d'.record) in {(a.previous, old_), (a.target, old_), (a.target, new_)}
    ensures Clean(ts) ==> !CrashRuns(d, a, ts).temporary
  {
    if ts == [] {
      assert Recoverable(d, a, Env(true, true, true, 0), d.record);
    } else {
      var before := ts[..|ts| - 1];
      OnlyThreePairs(d, a, before);
      AttemptKeepsRecovering(CrashRuns(d, a, before), a, ts[|ts| - 1], d.record);
      assert Clean(ts) ==> Clean(before) && ts[|ts| - 1] in ts;
      ThreePairs(CrashRuns(d, a, ts), a, d.record);
    }
  }

  lemma ThreePairs(d: Disk, a: Args, r0: Record)
    requires Recovering(d, a, r0)
    ensures (d.checkout, d.record) in {(a.previous, r0), (a.target, r0), (a.target, r0.(sha := a.target))}
  {
    var s :| Recoverable(d, a, s, r0);
  }

  /** From anywhere a crash can lead, a whole run reaches new/new with a committed receipt exactly if it finds trusted trees,
      the hold and the recovery evidence, and the snapshot of the receipt, or no receipt and no temporary in its directory;
      otherwise it does nothing. */
  lemma RecoversIff(d: Disk, a: Args, env: Env, r0: Record)
    requires a.previous != a.target && Recovering(d, a, r0)
    ensures var goes := env.trusted && env.hold && env.recovery
                        && if d.receipt.Some? then d.receipt.value.snapshot == env.snapshot else !d.temporary;
      && (MayRun(d, a, env) <==> goes)
      && if goes then Committed(WholeRun(d, a, env), a, r0) else WholeRun(d, a, env) == d
  {
    RunsOrRefuses(d, a, env, r0);
    var s :| Recoverable(d, a, s, r0);
    if MayRun(d, a, env) {
      PlanInOrder(d, a, env, r0);
    }
  }

  /** After clean crashes one whole run that finds the receipt's snapshot completes the handoff, and one more changes nothing. */
  lemma CleanCrashesRecover(d: Disk, a: Args, ts: seq<Attempt>, env: Env)
    requires a.previous != a.target && Untouched(d, a) && env.trusted && env.hold && env.recovery && Clean(ts)
    requires var receipt := CrashRuns(d, a, ts).receipt; receipt.Some? ==> receipt.value.snapshot == env.snapshot
    ensures var done := WholeRun(CrashRuns(d, a, ts), a, env);
      Committed(done, a, d.record) && WholeRun(done, a, env) == done
  {
    OnlyThreePairs(d, a, ts);
    var d' := CrashRuns(d, a, ts);
    RecoversIff(d', a, env, d.record);
    assert Plan(WholeRun(d', a, env), a, env) == [];
  }

  /** The family that fails is not empty: dying inside the very first receipt write blocks every later run. */
  lemma TornReceiptBlocks(d: Disk, a: Args, env: Env, ts: seq<Attempt>)
    requires a.previous != a.target && Untouched(d, a) && env.trusted && env.hold && env.recovery
    ensures var stuck := CrashRun(d, a, env, Crash(2, true));
      CrashRuns(stuck, a, ts) == stuck && !Committed(stuck, a, d.record)
  {
    var r := Prepared(a, env, d.record);
    var ws := Plan(d, a, env);
    assert ws[0] == MakeDirectory && ws[1] == SaveOriginal(d.record) && ws[2] == SaveReceipt(r);
    assert ws[..2] == [MakeDirectory, SaveOriginal(d.record)];
    ApplyTwo(d, ws[0], ws[1]);
    var stuck := CrashRun(d, a, env, Crash(2, true));
    assert stuck == d.(directory := true, original := Some(d.record), temporary := true);
    StaysStuck(stuck, a, ts);
  }

  /** So does dying inside the write of the original record, one write earlier. */
  lemma TornOriginalBlocks(d: Disk, a: Args, env: Env, ts: seq<Attempt>)
    requires a.previous != a.target && Untouched(d, a) && env.trusted && env.hold && env.recovery
    ensures var stuck := CrashRun(d, a, env, Crash(1, true));
      CrashRuns(stuck, a, ts) == stuck && !Committed(stuck, a, d.record)
  {
    var ws := Plan(d, a, env);
    assert ws[0] == MakeDirectory && ws[1] == SaveOriginal(d.record);
    assert ws[..1] == [MakeDirectory] && ws[..1][1..] == [];
    assert ApplyAll(d, ws[..1]) == ApplyAll(Apply(d, MakeDirectory), []);
    var stuck := CrashRun(d, a, env, Crash(1, true));
    assert stuck == d.(directory := true, temporary := true);
    StaysStuck(stuck, a, ts);
  }

  lemma {:induction false} StaysStuck(d: Disk, a: Args, ts: seq<Attempt>)
    requires d.receipt == None && d.directory && d.temporary
    ensures CrashRuns(d, a, ts) == d
  {
    if ts != [] {
      StaysStuck(d, a, ts[..|ts| - 1]);
    }
  }

  // ----- the command itself

  lemma {:induction false} ApplyOneMore(d: Disk, ws: seq<Write>, n: nat)
    requires n < |ws|
    ensures ApplyAll(d, ws[..n + 1]) == Apply(ApplyAll(d, ws[..n]), ws[n])
    decreases n
  {
    if n == 0 {
      assert ws[..1][1..] == [];
    } else {
      ApplyOneMore(Apply(d, ws[0]), ws[1..], n - 1);
      assert ws[..n + 1][1..] == ws[1..][..n] && ws[..n][1..] == ws[1..][..n - 1];
    }
  }

  // ----- in plain terms

  /** What a host must look like for a run to write anything: the old or the new tree, and either no receipt, the record of
      the old one and nothing strange in the directory, or a receipt of these very arguments and snapshot whose two records
      are the ones found. */
  predicate Presented(d: Disk, a: Args, env: Env) {
    && env.trusted && env.hold && env.recovery
    && (d.checkout == a.previous || d.checkout == a.target)
    && d.record.op == a.op && d.record.adopted
    && match d.receipt
       case None =>
         && d.checkout == a.previous && d.record.sha == a.previous
         && (d.directory ==> !d.temporary) && (d.original.Some? ==> d.original.value == d.record)
       case Some(r) =>
         && r.op == a.op && r.identity == a.identity && r.previous == a.previous && r.target == a.target
         && r.backup == a.backup && r.snapshot == env.snapshot
         && d.original == Some(r.before) && r.before.sha == a.previous && r.after == r.before.(sha := a.target)
         && (d.record == r.before || d.record == r.after)
         && (d.checkout == a.previous ==> d.record == r.before)
         && (r.committed ==> d.checkout == a.target && d.record == r.after)
  }

  lemma PresentedOrNothing(d: Disk, a: Args, env: Env)
    ensures MayRun(d, a, env) <==> Presented(d, a, env)
    ensures !Presented(d, a, env) ==> Plan(d, a, env) == []
  {
  }

  /** Files of the receipt directory exist only in it. */
  predicate Contained(d: Disk) {
    d.original.Some? || d.receipt.Some? || d.temporary ==> d.directory
  }

  /** What a whole run from such a host ends in. */
  predicate Closed(d: Disk, a: Args) {
    && d.checkout == a.target && RecordIs(d.record, a.target, a)
    && d.receipt.Some? && d.original.Some? && d.receipt.value.committed
    && d.receipt.value.after == d.record && d.receipt.value.before == d.original.value
  }

  lemma CommittedRun(d: Disk, a: Args, env: Env)
    requires a.previous != a.target && Contained(d) && Presented(d, a, env)
    ensures Closed(WholeRun(d, a, env), a)
  {
    var r0 := if d.receipt.Some? then d.receipt.value.before else d.record;
    assert Recoverable(d, a, env, r0);
    PlanInOrder(d, a, env, r0);
    CrashKeepsRecoverable(d, a, env, r0, Crash(|Plan(d, a, env)|, false));
  }

  /** The first handoff of a host takes six writes. */
  lemma FirstRun(d: Disk, a: Args, env: Env)
    requires a.previous != a.target && Untouched(d, a) && env.trusted && env.hold && env.recovery
    ensures |Plan(d, a, env)| == 6
    ensures WholeRun(d, a, env) ==
      Disk(a.target, d.record.(sha := a.target), true, Some(d.record),
           Some(Receipt(true, a.op, a.identity, a.previous, a.target, d.record, d.record.(sha := a.target), env.snapshot, a.backup)),
           false)
  {
    assert Recoverable(d, a, env, d.record);
    PlanInOrder(d, a, env, d.record);
    CrashKeepsRecoverable(d, a, env, d.record, Crash(6, false));
    assert |Plan(d, a, env)| == 6;
    TemporaryUntouched(d, Plan(d, a, env));
  }

  lemma RunInPlainTerms(d: Disk, a: Args, env: Env, c: Crash)
    requires a.previous != a.target
    ensures CrashRun(d, a, env, c) != d || MayRun(d, a, env) ==> Presented(d, a, env)
    ensures MayRun(d, a, env) && c.writes >= |Plan(d, a, env)| && Contained(d) ==> Closed(CrashRun(d, a, env, c), a)
    ensures Untouched(d, a) && env.trusted && env.hold && env.recovery && c.writes >= 6 ==>
      && MayRun(d, a, env) && c.writes >= |Plan(d, a, env)|
      && CrashRun(d, a, env, c) ==
         Disk(a.target, d.record.(sha := a.target), true, Some(d.record),
              Some(Receipt(true, a.op, a.identity, a.previous, a.target, d.record, d.record.(sha := a.target), env.snapshot, a.backup)),
              false)
  {
    PresentedOrNothing(d, a, env);
    if MayRun(d, a, env) && Contained(d) {
      CommittedRun(d, a, env);
    }
    if Untouched(d, a) && env.trusted && env.hold && env.recovery {
      FirstRun(d, a, env);
    }
  }

  class Host {
    var checkout: Sha
    var record: Record
    var directory: bool
    var original: Option<Record>
    var receipt: Option<Receipt>
    var temporary: bool
    var left: nat    // writes it will still survive
    const torn: bool // whether it then dies inside the write

    constructor (d: Disk, c: Crash)
      ensures Now() == d && left == c.writes && torn == c.torn
    {
      checkout, record, directory, original, receipt, temporary :=
        d.checkout, d.record, d.directory, d.original, d.receipt, d.temporary;
      left, torn := c.writes, c.torn;
    }

    ghost function Now(): Disk
      reads this
    {
      Disk(checkout, record, directory, original, receipt, temporary)
    }

    ghost predicate Progress(d0: Disk, left0: nat, plan: seq<Write>, n: nat)
      reads this
    {
      n <= |plan| && n + left == left0 && Now() == ApplyAll(d0, plan[..n])
    }

    /** One durable write, or the death of the machine. */
    method Put(w: Write, ghost d0: Disk, ghost left0: nat, ghost plan: seq<Write>, ghost n: nat) returns (alive: bool)
      requires Progress(d0, left0, plan, n) && n < |plan| && plan[n] == w
      modifies this
      ensures alive ==> Progress(d0, left0, plan, n + 1) && Now() == Apply(old(Now()), w)
      ensures !alive ==> left0 < |plan| && Now() == Cut(d0, plan, Crash(left0, torn))
    {
      if left == 0 {
        if torn && (w.SaveOriginal? || w.SaveReceipt?) {
          temporary := true;
        }
        return false;
      }
      left := left - 1;
      match w {
        case MakeDirectory => directory := true;
        case SaveOriginal(t) => original := Some(t);
        case SaveReceipt(r) => receipt := Some(r);
        case SwitchCheckout(sha) => checkout := sha;
        case SaveRecord(t) => record := t;
      }
      ApplyOneMore(d0, plan, n);
      return true;
    }

    /** The directory, the saved record and the first receipt, each only if still missing. */
    method Prepare(r: Receipt, ghost d0: Disk, ghost plan: seq<Write>) returns (alive: bool, n: nat)
      requires Now() == d0 && receipt == None && PreparePart(d0, r) <= plan
      modifies this
      ensures alive ==> n == |PreparePart(d0, r)| && Progress(d0, old(left), plan, n)
                        && Now() == d0.(directory := true, receipt := Some(r),
                                        original := Some(if d0.original.Some? then d0.original.value else d0.record))
      ensures !alive ==> old(left) < |plan| && Now() == Cut(d0, plan, Crash(old(left), torn))
    {
      ghost var left0, part := left, PreparePart(d0, r);
      assert forall i | 0 <= i < |part| :: plan[i] == part[i];
      n := 0;
      if !directory {
        alive := Put(MakeDirectory, d0, left0, plan, n);
        if !alive { return; }
        n := n + 1;
      }
      if original == None {
        alive := Put(SaveOriginal(record), d0, left0, plan, n);
        if !alive { return; }
        n := n + 1;
      }
      alive := Put(SaveReceipt(r), d0, left0, plan, n);
      n := n + 1;
    }

    /** The switch if still needed, the record and the committed receipt. */
    method Commit(r: Receipt, a: Args, n: nat, ghost d0: Disk, ghost left0: nat, ghost plan: seq<Write>) returns (alive: bool)
      requires Progress(d0, left0, plan, n)
      requires plan[n..] == (if checkout == a.previous then [SwitchCheckout(a.target)] else [])
                            + [SaveRecord(r.after), SaveReceipt(r.(committed := true))]
      modifies this
      ensures alive ==> left0 >= |plan| && Now() == ApplyAll(d0, plan)
      ensures !alive ==> left0 < |plan| && Now() == Cut(d0, plan, Crash(left0, torn))
    {
      ghost var rest := plan[n..];
      assert forall i | 0 <= i < |rest| :: plan[n + i] == rest[i];
      var m := n;
      if checkout == a.previous {
        alive := Put(SwitchCheckout(a.target), d0, left0, plan, m);
        if !alive { return; }
        m := m + 1;
      }
      alive := Put(SaveRecord(r.after), d0, left0, plan, m);
      if !alive { return; }
      alive := Put(SaveReceipt(r.(committed := true)), d0, left0, plan, m + 1);
      assert plan[..|plan|] == plan;
    }

    /** `handoff`: true exactly when it returned `handoff_committed`. */
    method Run(a: Args, env: Env) returns (committed: bool)
      requires a.previous != a.target
      modifies this
      ensures Now() == CrashRun(old(Now()), a, env, Crash(old(left), torn))
      ensures committed <==> MayRun(old(Now()), a, env) && old(left) >= |Plan(old(Now()), a, env)|
      ensures !(env.trusted && env.hold && env.recovery) ==> Now() == old(Now()) && !committed
      ensures committed || Now() != old(Now()) ==> Presented(old(Now()), a, env)
      ensures committed && Contained(old(Now())) ==> Closed(Now(), a)
      ensures Untouched(old(Now()), a) && env.trusted && env.hold && env.recovery && old(left) >= 6 ==>
        committed && Now() == Disk(a.target, old(record).(sha := a.target), true, Some(old(record)),
                                   Some(Receipt(true, a.op, a.identity, a.previous, a.target, old(record),
                                                old(record).(sha := a.target), env.snapshot, a.backup)), false)
    {
      RunInPlainTerms(Now(), a, env, Crash(left, torn));
      ghost var d0, left0, plan := Now(), left, Plan(Now(), a, env);
      if !(env.trusted && env.hold && env.recovery) || (checkout != a.previous && checkout != a.target) {
        return false;
      }
      var n: nat := 0;
      var r: Receipt;
      if receipt.Some? {
        r := receipt.value;
        if original == None { return false; }
        var text := original.value;
        if r.(committed := false) != Prepared(a, env, text) || !RecordIs(text, a.previous, a) { return false; }
        if record != text && record != r.after { return false; }
        if checkout == a.previous && record != text { return false; }
        if r.committed {
          return checkout == a.target && record == r.after;
        }
        assert plan[0..] == plan;
      } else {
        if checkout != a.previous || !RecordIs(record, a.previous, a) { return false; }
        if directory && temporary { return false; }
        if original.Some? && original.value != record { return false; }
        r := Prepared(a, env, record);
        ghost var rest := [SwitchCheckout(a.target), SaveRecord(r.after), SaveReceipt(r.(committed := true))];
        assert plan == PreparePart(d0, r) + rest by {
          assert [SwitchCheckout(a.target)] + [SaveRecord(r.after), SaveReceipt(r.(committed := true))] == rest;
        }
        var alive;
        alive, n := Prepare(r, d0, plan);
        if !alive { return false; }
        assert plan[n..] == rest;
      }
      committed := Commit(r, a, n, d0, left0, plan);
    }
  }
}
