/**
  Reading a file that a writer may atomically replace between any two accesses of the reader
  (`_file`, `_read_snapshot`, `_read`).  A replaced file keeps its content while a descriptor is
  open on it; an inode number may be reused once the file is neither named nor open.
*/
module SnapshotRead {
  import opened Base

  type Byte = x: int | 0 <= x < 256

  const MAX_JSON_BYTES := 8192

  /** A published version; `rest` is its owner, mode and times. */
  datatype File = File(inode: nat, content: seq<Byte>, rest: nat)

  datatype Stat = Stat(inode: nat, size: nat, rest: nat, linked: bool)

  function StatOf(f: File, linked: bool): Stat {
    Stat(f.inode, |f.content|, f.rest, linked)
  }

  datatype Attempt = Content(bytes: seq<Byte>) | Replaced | Failed

  // ----- the decision of one attempt, as a function of what it saw

  predicate Observed(before: Stat, after: Stat) {
    !after.linked ==> before.linked && before == after.(linked := true)
  }

  /** `before`: named, then opened and looked at as `found`; if they differ, named again as `again`. */
  function OpenVerdict(before: Stat, found: Stat, again: Stat): Option<Attempt> {
    if !Observed(before, found) then Some(Failed)
    else if before.inode != found.inode || !found.linked then
      if before.inode == again.inode then Some(Failed) else Some(Replaced)
    else if before != found then Some(Failed)
    else None
  }

  function ReadVerdict(found: Stat, after: Stat, named: Stat, bytes: seq<Byte>): Attempt {
    if !Observed(found, after) then Failed
    else if found.inode != named.inode then Replaced
    else if found == after && after == named then Content(bytes)
    else Failed
  }

  /** What was read is returned exactly when the three looks agree, and read again exactly when only the name has moved on. */
  lemma ReadVerdictIs(found: Stat, after: Stat, named: Stat, bytes: seq<Byte>)
    requires found.linked
    ensures ReadVerdict(found, after, named, bytes) == Content(bytes) <==> found == after == named
    ensures ReadVerdict(found, after, named, bytes) == Replaced <==>
              found.inode != named.inode && (after.linked || after == found.(linked := false))
  {
  }

  /** When exactly an attempt fails outright, not to be retried, if the file opened keeps its inode number while it is
      open but any other number may be used again: the opened file is named no more and does not look like the one
      named before; or it is still named, and either carries the other's number or the number is back in use. */
  lemma FailsOutrightIff(statted: File, found: File, linked: bool, again: File)
    requires if linked then again == found || again.inode != found.inode else again.inode != found.inode
    ensures OpenVerdict(StatOf(statted, true), StatOf(found, linked), StatOf(again, true)) == Some(Failed)
            <==> if !linked then StatOf(statted, true) != StatOf(found, true)
                 else if statted.inode == found.inode then StatOf(statted, true) != StatOf(found, true)
                 else again.inode == statted.inode
  {
  }

  /** So if no number is used again: exactly when the file was replaced between looking at its name and opening it and
      once more before looking at the descriptor. */
  lemma FailsOutrightWithoutReuse(statted: File, found: File, linked: bool, again: File)
    requires statted.inode == found.inode <==> statted == found
    requires again.inode == statted.inode ==> found == statted && linked
    requires if linked then again == found || again.inode != found.inode else again.inode != found.inode
    ensures OpenVerdict(StatOf(statted, true), StatOf(found, linked), StatOf(again, true)) == Some(Failed)
            <==> found != statted && !linked
  {
    FailsOutrightIff(statted, found, linked, again);
  }

  /** Such an attempt exists with two replacements, although a third attempt would still have been allowed. */
  lemma TwoReplacementsCanFail(a: File, b: File, c: File)
    requires a.inode != b.inode && b.inode != c.inode && a.inode != c.inode
    ensures OpenVerdict(StatOf(a, true), StatOf(b, false), StatOf(c, true)) == Some(Failed)
  {
    FailsOutrightIff(a, b, false, c);
  }

  // ----- the writer

  /** Versions published under the name, and the one a descriptor is open on: no inode is given out while in use. */
  ghost predicate Sound(history: seq<File>, open: Option<nat>) {
    && history != []
    && (forall i | 0 <= i < |history| :: |history[i].content| <= MAX_JSON_BYTES)
    && (forall i | 1 <= i < |history| :: history[i].inode != history[i - 1].inode)
    && (open.Some? ==>
          && open.value < |history|
          && forall i | open.value < i < |history| :: history[i].inode != history[open.value].inode)
  }

  /** What may replace the file named last: not too long, and of an inode not in use. */
  predicate MayFollow(history: seq<File>, open: Option<nat>, f: File) {
    history != [] && |f.content| <= MAX_JSON_BYTES && f.inode != Last(history).inode
    && (open.Some? && open.value < |history| ==> f.inode != history[open.value].inode)
  }

  function Publish(history: seq<File>, open: Option<nat>, files: seq<File>): (longer: seq<File>)
    ensures |history| <= |longer|
    decreases |files|
  {
    if files == [] then history
    else Publish(if MayFollow(history, open, files[0]) then history + [files[0]] else history, open, files[1..])
  }

  lemma {:induction false} PublishIsSound(history: seq<File>, open: Option<nat>, files: seq<File>)
    requires Sound(history, open)
    ensures Sound(Publish(history, open, files), open)
    decreases |files|
  {
    if files != [] {
      PublishIsSound(if MayFollow(history, open, files[0]) then history + [files[0]] else history, open, files[1..]);
    }
  }

  lemma {:induction false} PublishExtends(history: seq<File>, open: Option<nat>, files: seq<File>)
    ensures history <= Publish(history, open, files)
    decreases |files|
  {
    if files != [] {
      PublishExtends(if MayFollow(history, open, files[0]) then history + [files[0]] else history, open, files[1..]);
    }
  }

  /** The replacements before the `k`-th access from now. */
  function Planned(plan: seq<seq<File>>, k: nat): seq<File> {
    if k < |plan| then plan[k] else []
  }

  function Rest(plan: seq<seq<File>>): seq<seq<File>> {
    if plan == [] then [] else plan[1..]
  }

  lemma FirstThree(plan: seq<seq<File>>)
    ensures Planned(Rest(plan), 0) == Planned(plan, 1) && Planned(Rest(Rest(plan)), 0) == Planned(plan, 2)
    ensures Planned(Rest(Rest(Rest(plan))), 0) == Planned(plan, 3)
  {
  }

  function Last(history: seq<File>): File
    requires history != []
  {
    history[|history| - 1]
  }

  /** How opening the named file ends if the writer follows `plan` between the four accesses. */
  function OpenOutcome(history: seq<File>, plan: seq<seq<File>>): Option<Attempt>
    requires history != []
  {
    var h1 := Publish(history, None, Planned(plan, 0));
    var h2 := Publish(h1, None, Planned(plan, 1));
    var h3 := Publish(h2, Some(|h2| - 1), Planned(plan, 2));
    var h4 := Publish(h3, Some(|h2| - 1), Planned(plan, 3));
    OpenVerdict(StatOf(Last(h1), true), StatOf(Last(h2), |h3| == |h2|), StatOf(Last(h4), true))
  }

  /** The versions published after those four accesses, and what is left of the plan. */
  function Reopened(history: seq<File>, plan: seq<seq<File>>): (seq<File>, seq<seq<File>>)
    requires history != []
  {
    var h2 := Publish(Publish(history, None, Planned(plan, 0)), None, Planned(plan, 1));
    var h3 := Publish(h2, Some(|h2| - 1), Planned(plan, 2));
    (Publish(h3, Some(|h2| - 1), Planned(plan, 3)), Rest(Rest(Rest(Rest(plan)))))
  }

  /** The writer is done. */
  predicate Quiet(plan: seq<seq<File>>) {
    plan == [] || (plan[0] == [] && Quiet(plan[1..]))
  }

  lemma QuietRest(plan: seq<seq<File>>)
    ensures Quiet(plan) ==> Quiet(Rest(plan)) && Planned(plan, 0) == []
  {
  }

  lemma QuietFinds(history: seq<File>, plan: seq<seq<File>>)
    requires history != [] && Quiet(plan)
    ensures OpenOutcome(history, plan) == None
  {
    FirstThree(plan);
    QuietRest(plan);
    QuietRest(Rest(plan));
    QuietRest(Rest(Rest(plan)));
    QuietRest(Rest(Rest(Rest(plan))));
  }

  // ----- several attempts

  /** The content of a version that was named at some moment between two looks at the history. */
  ghost predicate NamedDuring(before: seq<File>, after: seq<File>, bytes: seq<Byte>) {
    exists i :: |before| - 1 <= i < |after| && i >= 0 && after[i].content == bytes
  }

  lemma LastIsNamed(before: seq<File>, after: seq<File>)
    requires before <= after && after != []
    ensures NamedDuring(before, after, Last(after).content)
  {
    assert after[|after| - 1] == Last(after);
  }

  datatype Answer = MustFail | MustBe(bytes: seq<Byte>) | Any

  /** What a read with `n` attempts left must answer: an error after an opening that fails for good, or when no attempt is
      left; what is named, once the writer is done; and after an opening that found the file replaced, what the next must. */
  function Required(h: seq<File>, p: seq<seq<File>>, n: nat): Answer
    requires h != []
    decreases n
  {
    if n == 0 then MustFail
    else if OpenOutcome(h, p) == Some(Failed) then MustFail
    else if OpenOutcome(h, p) == Some(Replaced) then Required(Reopened(h, p).0, Reopened(h, p).1, n - 1)
    else if Quiet(p) then MustBe(Last(h).content)
    else Any
  }

  predicate Meets(r: Option<seq<Byte>>, answer: Answer) {
    match answer
    case MustFail => r == None
    case MustBe(bytes) => r == Some(bytes)
    case Any => true
  }

  /** Whatever is right for the attempts left is right for the whole read. */
  ghost predicate Serves(whole: Answer, h: seq<File>, p: seq<seq<File>>, n: nat)
    requires h != []
  {
    forall r | Meets(r, Required(h, p, n)) :: Meets(r, whole)
  }

  lemma ServesItself(h: seq<File>, p: seq<seq<File>>, n: nat)
    requires h != []
    ensures Serves(Required(h, p, n), h, p, n)
  {
  }

  lemma NothingLeftServes(whole: Answer, h: seq<File>, p: seq<seq<File>>)
    requires h != [] && Serves(whole, h, p, 0)
    ensures Meets(None, whole)
  {
    assert Meets(None, Required(h, p, 0));
  }

  /** What one attempt means for the whole read. */
  lemma AttemptDecides(whole: Answer, h: seq<File>, p: seq<seq<File>>, n: nat, one: Attempt, h': seq<File>, p': seq<seq<File>>)
    requires h != [] && h' != [] && n > 0 && Serves(whole, h, p, n)
    requires OpenOutcome(h, p).Some? ==> Some(one) == OpenOutcome(h, p) && !one.Content?
    requires OpenOutcome(h, p) == Some(Replaced) ==> (h', p') == Reopened(h, p)
    requires Quiet(p) ==> one == Content(Last(h).content)
    ensures one.Content? ==> Meets(Some(one.bytes), whole)
    ensures one.Failed? ==> Meets(None, whole)
    ensures one.Replaced? ==> Serves(whole, h', p', n - 1)
  {
    var answer := Required(h, p, n);
    assert one.Content? ==> Meets(Some(one.bytes), answer);
    assert one.Failed? ==> Meets(None, answer);
    if one.Replaced? {
      assert answer == Any || answer == Required(h', p', n - 1);
      assert forall r | Meets(r, Required(h', p', n - 1)) :: Meets(r, answer);
    }
  }

  /** What looking at the name, opening it and looking at the descriptor finds; `at` is the version opened. */
  predicate Seen(history: seq<File>, plan: seq<seq<File>>, before: Stat, found: Stat, longer: seq<File>, at: nat)
    requires history != []
  {
    var h1 := Publish(history, None, Planned(plan, 0));
    var h2 := Publish(h1, None, Planned(plan, 1));
    && longer == Publish(h2, Some(|h2| - 1), Planned(plan, 2)) && at == |h2| - 1
    && before == StatOf(Last(h1), true) && found == StatOf(Last(h2), |longer| == |h2|)
  }

  lemma SeenSoFar(h: seq<File>, p: seq<seq<File>>, before: Stat, found: Stat, h1: seq<File>, h2: seq<File>, h3: seq<File>)
    requires h != [] && h1 == Publish(h, None, Planned(p, 0)) && h2 == Publish(h1, None, Planned(p, 1))
    requires h3 == Publish(h2, Some(|h2| - 1), Planned(p, 2))
    requires before == StatOf(Last(h1), true) && found == StatOf(Last(h2), |h3| == |h2|)
    ensures Seen(h, p, before, found, h3, |h2| - 1)
  {
  }

  lemma SeenReopens(history: seq<File>, plan: seq<seq<File>>, before: Stat, found: Stat, longer: seq<File>, at: nat)
    requires history != [] && Seen(history, plan, before, found, longer, at)
    ensures Reopened(history, plan) == (Publish(longer, Some(at), Planned(plan, 3)), Rest(Rest(Rest(Rest(plan)))))
  {
  }

  /** How many replacements that takes at least. */
  lemma SeenCounts(history: seq<File>, plan: seq<seq<File>>, before: Stat, found: Stat, longer: seq<File>, at: nat)
    requires history != [] && Seen(history, plan, before, found, longer, at) && at < |longer|
    requires forall i | 1 <= i < |longer| :: longer[i].inode != longer[i - 1].inode
    ensures at >= |history| - if before == found.(linked := true) then 1 else 0
    ensures before.inode == found.inode && before != found.(linked := true) ==> at >= |history| + 1
  {
    var h1 := Publish(history, None, Planned(plan, 0));
    var h2 := Publish(h1, None, Planned(plan, 1));
    PublishExtends(h1, None, Planned(plan, 1));
    PublishExtends(h2, Some(|h2| - 1), Planned(plan, 2));
    assert longer[|h1| - 1] == Last(h1);
    assert at == |h1| ==> longer[at].inode != longer[at - 1].inode;
  }

  lemma SeenQuiet(history: seq<File>, plan: seq<seq<File>>, before: Stat, found: Stat, longer: seq<File>, at: nat)
    requires history != [] && Seen(history, plan, before, found, longer, at)
    ensures Quiet(plan) ==> longer == history && Quiet(Rest(Rest(Rest(plan))))
  {
    FirstThree(plan);
    QuietRest(plan);
    QuietRest(Rest(plan));
    QuietRest(Rest(Rest(plan)));
  }

  /** The name is looked at again only where that matters. */
  lemma SeenDecides(history: seq<File>, plan: seq<seq<File>>, before: Stat, found: Stat, longer: seq<File>, at: nat, again: Stat)
    requires history != [] && Seen(history, plan, before, found, longer, at) && at < |longer|
    requires Observed(before, found) && (before.inode != found.inode || !found.linked) ==>
      again == StatOf(Last(Publish(longer, Some(at), Planned(plan, 3))), true)
    ensures OpenVerdict(before, found, again) == OpenOutcome(history, plan)
  {
  }

  /** Two replacements, one before the file is opened and one before its descriptor is looked at, refuse it for good. */
  lemma TwoReplacementsRefuse(a: File, b: File, c: File, later: seq<seq<File>>)
    requires a.inode != b.inode && b.inode != c.inode && a.inode != c.inode
    requires |a.content| <= MAX_JSON_BYTES && |b.content| <= MAX_JSON_BYTES && |c.content| <= MAX_JSON_BYTES
    requires later == [] || later[0] == []
    ensures OpenOutcome([a], [[], [b], [c]] + later) == Some(Failed)
  {
    var plan := [[], [b], [c]] + later;
    assert Planned(plan, 3) == [];
    assert Publish([a], None, [b]) == [a, b] by { assert [b][1..] == []; }
    assert Publish([a, b], Some(1), [c]) == [a, b, c] by { assert [c][1..] == []; }
    TwoReplacementsCanFail(a, b, c);
  }

  class Reader {
    var history: seq<File>     // every version ever published under the name; the last one is named
    var open: Option<nat>      // the version the descriptor is open on
    var plan: seq<seq<File>>   // what the writer will try to publish before each access to come

    constructor (f: File, plan: seq<seq<File>>)
      requires |f.content| <= MAX_JSON_BYTES
      ensures Valid() && history == [f] && open == None && this.plan == plan
    {
      history, open := [f], None;
      this.plan := plan;
    }

    ghost predicate Valid()
      reads this
    {
      Sound(history, open)
    }

    function Named(): File
      requires history != []
      reads this
    {
      history[|history| - 1]
    }

    /** The writer: any number of replacements, each by a file whose inode is not in use. */
    method WriterRuns()
      requires Valid()
      modifies this`history, this`plan
      ensures Valid() && history == Publish(old(history), open, Planned(old(plan), 0)) && plan == Rest(old(plan))
      ensures old(history) <= history
      ensures Quiet(old(plan)) ==> history == old(history) && Quiet(plan)
    {
      PublishIsSound(history, open, Planned(plan, 0));
      PublishExtends(history, open, Planned(plan, 0));
      QuietRest(plan);
      history := Publish(history, open, Planned(plan, 0));
      plan := Rest(plan);
    }

    method StatName() returns (s: Stat)
      requires Valid()
      modifies this`history, this`plan
      ensures Valid() && history == Publish(old(history), open, Planned(old(plan), 0)) && plan == Rest(old(plan))
      ensures old(history) <= history
      ensures s == StatOf(Named(), true)
      ensures Quiet(old(plan)) ==> history == old(history) && Quiet(plan)
    {
      WriterRuns();
      s := StatOf(Named(), true);
    }

    method Open()
      requires Valid()
      requires open == None
      modifies this
      ensures Valid() && history == Publish(old(history), None, Planned(old(plan), 0)) && plan == Rest(old(plan))
      ensures old(history) <= history
      ensures open == Some(|history| - 1)
      ensures Quiet(old(plan)) ==> history == old(history) && Quiet(plan)
    {
      WriterRuns();
      open := Some(|history| - 1);
    }

    method StatDescriptor() returns (s: Stat)
      requires Valid() && open.Some?
      modifies this`history, this`plan
      ensures Valid() && history == Publish(old(history), open, Planned(old(plan), 0)) && plan == Rest(old(plan))
      ensures old(history) <= history
      ensures s == StatOf(history[open.value], open.value == |history| - 1)
      ensures Quiet(old(plan)) ==> history == old(history) && Quiet(plan)
    {
      WriterRuns();
      s := StatOf(history[open.value], open.value == |history| - 1);
    }

    /** One `os.read`: a nonempty piece unless the end is reached or nothing is asked for. */
    method ReadSome(at: nat, most: nat) returns (piece: seq<Byte>)
      requires Valid() && open.Some? && at <= |history[open.value].content|
      modifies this`history, this`plan
      ensures Valid() && old(history) <= history
      ensures at + |piece| <= |history[open.value].content| && |piece| <= most
      ensures piece == history[open.value].content[at..at + |piece|]
      ensures piece == [] ==> most == 0 || at == |history[open.value].content|
      ensures Quiet(old(plan)) ==> history == old(history) && Quiet(plan)
    {
      WriterRuns();
      var content := history[open.value].content;
      var available := if |content| - at < most then |content| - at else most;
      var k: nat :| true;
      if k > available || (k == 0 && available > 0) { k := available; }
      piece := content[at..at + k];
    }

    method ReadAll() returns (raw: seq<Byte>)
      requires Valid() && open.Some?
      modifies this`history, this`plan
      ensures Valid() && old(history) <= history && raw == history[open.value].content
      ensures Quiet(old(plan)) ==> history == old(history) && Quiet(plan)
    {
      raw := [];
      while |raw| <= MAX_JSON_BYTES
        invariant Valid() && old(history) <= history
        invariant Quiet(old(plan)) ==> history == old(history) && Quiet(plan)
        invariant raw <= history[open.value].content
        decreases MAX_JSON_BYTES + 1 - |raw|
      {
        var chunk := ReadSome(|raw|, MAX_JSON_BYTES + 1 - |raw|);
        if chunk == [] {
          return;
        }
        raw := raw + chunk;
      }
    }

    /** Look at the name, open it, and look at the descriptor. */
    method NameAndOpen() returns (before: Stat, found: Stat)
      requires Valid()
      modifies this
      ensures Valid() && old(history) <= history && open.Some?
      ensures Seen(old(history), old(plan), before, found, history, open.value)
      ensures plan == Rest(Rest(Rest(old(plan))))
      ensures found == StatOf(history[open.value], open.value == |history| - 1) && before.linked
    {
      ghost var h, p := history, plan;
      open := None;
      before := StatName();
      ghost var h1 := history;
      Open();
      ghost var h2 := history;
      found := StatDescriptor();
      FirstThree(p);
      SeenSoFar(h, p, before, found, h1, h2, history);
    }

    /** The decision, for which the name may have to be looked at again. */
    method Decide(before: Stat, found: Stat, ghost h0: seq<File>, ghost p0: seq<seq<File>>) returns (refused: Option<Attempt>)
      requires Valid() && open.Some? && h0 != [] && Seen(h0, p0, before, found, history, open.value)
      requires plan == Rest(Rest(Rest(p0))) && before.linked
      requires found == StatOf(history[open.value], open.value == |history| - 1)
      modifies this`history, this`plan
      ensures Valid() && old(history) <= history && refused == OpenOutcome(h0, p0)
      ensures refused == None ==> found.linked && before == found && history == old(history) && plan == old(plan)
      ensures refused == Some(Replaced) ==> (history, plan) == Reopened(h0, p0) && (before.inode != found.inode || !found.linked)
      ensures refused == Some(Failed) && before == found.(linked := true) ==> |history| > old(|history|) || !found.linked
      ensures refused == Some(Failed) ==> before != found.(linked := true)
      ensures refused == Some(Failed) && before.inode != found.inode && found.linked ==> |history| > old(|history|)
      ensures refused.Some? ==> !refused.value.Content?
    {
      FirstThree(p0);
      SeenReopens(h0, p0, before, found, history, open.value);
      ghost var seen := history;
      var again := before;
      if Observed(before, found) && (before.inode != found.inode || !found.linked) {
        again := StatName();
      }
      SeenDecides(h0, p0, before, found, seen, open.value, again);
      refused := OpenVerdict(before, found, again);
    }

    /** Open what is named, and refuse it if it is not what was named before. */
    method OpenNamed() returns (refused: Option<Attempt>, found: Stat)
      requires Valid()
      modifies this
      ensures Valid() && old(history) <= history && refused == OpenOutcome(old(history), old(plan))
      ensures refused == None ==> open.Some? && open.value >= |old(history)| - 1 && found == StatOf(history[open.value], true)
      ensures refused.Some? ==> !refused.value.Content?
      ensures refused == Some(Replaced) ==> |history| >= |old(history)| + 1
      ensures refused == Some(Failed) ==> |history| >= |old(history)| + 2
      ensures refused == Some(Replaced) ==> (history, plan) == Reopened(old(history), old(plan))
      ensures refused == None && Quiet(old(plan)) ==> history == old(history) && Quiet(plan)
    {
      var before;
      before, found := NameAndOpen();
      SeenCounts(old(history), old(plan), before, found, history, open.value);
      SeenQuiet(old(history), old(plan), before, found, history, open.value);
      refused := Decide(before, found, old(history), old(plan));
    }

    /** The whole of what was opened, if it is still named and unchanged. */
    method ReadOpened(found: Stat) returns (r: Attempt)
      requires Valid() && open.Some? && found == StatOf(history[open.value], true)
      modifies this`history, this`plan
      ensures Valid() && old(history) <= history
      ensures if |history| > open.value + 1 then r == Replaced else r == Content(Named().content)
      ensures Quiet(old(plan)) && open.value == |old(history)| - 1 ==>
        r == Content(old(Named()).content) && history == old(history) && Quiet(plan)
    {
      var raw := ReadAll();
      var after := StatDescriptor();
      var named := StatName();
      r := ReadVerdict(found, after, named, raw);
      if found.inode == named.inode {
        assert open.value == |history| - 1;
      }
    }

    /** One attempt.  Content returned is the whole of the version that is still named at the last look. */
    method ReadSnapshot() returns (r: Attempt)
      requires Valid()
      modifies this
      ensures Valid() && old(history) <= history
      ensures r.Content? ==> r.bytes == Named().content
      ensures r.Replaced? ==> |history| >= |old(history)| + 1
      ensures r.Failed? ==> |history| >= |old(history)| + 2
      ensures r.Failed? ==> OpenOutcome(old(history), old(plan)) == Some(Failed)
      ensures OpenOutcome(old(history), old(plan)).Some? ==> Some(r) == OpenOutcome(old(history), old(plan)) && !r.Content?
      ensures OpenOutcome(old(history), old(plan)) == Some(Replaced) ==> (history, plan) == Reopened(old(history), old(plan))
      ensures Quiet(old(plan)) ==> r == Content(old(Named()).content) && history == old(history) && Quiet(plan)
    {
      if Quiet(plan) { QuietFinds(history, plan); }
      var refused, found := OpenNamed();
      if refused.Some? {
        return refused.value;
      }
      r := ReadOpened(found);
    }

    /** One attempt of a read that has `n` left. */
    method Attempt(ghost whole: Answer, ghost n: nat) returns (one: Attempt)
      requires Valid() && n > 0 && Serves(whole, history, plan, n)
      modifies this
      ensures Valid() && old(history) <= history
      ensures one.Content? ==> one.bytes == Named().content && Meets(Some(one.bytes), whole)
      ensures one.Failed? ==> |history| >= |old(history)| + 2 && Meets(None, whole)
      ensures one.Replaced? ==> |history| >= |old(history)| + 1 && Serves(whole, history, plan, n - 1)
    {
      ghost var h, p := history, plan;
      one := ReadSnapshot();
      AttemptDecides(whole, h, p, n, one, history, plan);
    }

    /** At most so many attempts; `None` is the error of the protocol. */
    method ReadAttempts(attempts: nat, ghost whole: Answer) returns (r: Option<seq<Byte>>)
      requires Valid() && Serves(whole, history, plan, attempts)
      modifies this
      ensures Valid() && old(history) <= history && Meets(r, whole)
      ensures r.Some? ==> r.value == Named().content
      ensures r == None ==> |history| >= |old(history)| + 2 || |history| >= |old(history)| + attempts
    {
      ghost var left := attempts;
      for attempt := 0 to attempts
        invariant Valid() && old(history) <= history && left == attempts - attempt
        invariant Serves(whole, history, plan, left) && |history| >= |old(history)| + attempt
      {
        var one := Attempt(whole, left);
        if one.Content? {
          return Some(one.bytes);
        }
        if one.Failed? {
          return None;
        }
        left := left - 1;
      }
      NothingLeftServes(whole, history, plan);
      r := None;
    }

    /** At most three. */
    method Read() returns (r: Option<seq<Byte>>)
      requires Valid()
      modifies this
      ensures Valid() && old(history) <= history
      ensures r.Some? ==> r.value == Named().content
      ensures r.Some? ==> NamedDuring(old(history), history, r.value)
      ensures r == None ==> |history| >= |old(history)| + 2
      ensures Meets(r, Required(old(history), old(plan), 3))
    {
      ServesItself(history, plan, 3);
      r := ReadAttempts(3, Required(history, plan, 3));
      LastIsNamed(old(history), history);
    }
  }

  /** Without a writer the file is read at once. */
  method ReadSucceeds(a: File) returns (r: Option<seq<Byte>>)
    requires |a.content| <= 8_192
    ensures r == Some(a.content)
  {
    var reader := new Reader(a, []);
    QuietFinds([a], []);
    r := reader.Read();
  }

  lemma OneReplacementRetries(h: seq<File>, a: File, b: File, later: seq<seq<File>>)
    requires h != [] && Last(h) == a && a.inode != b.inode && |b.content| <= MAX_JSON_BYTES
    ensures var plan := [[], [b], [], []] + later;
      OpenOutcome(h, plan) == Some(Replaced) && Reopened(h, plan) == (h + [b], later)
  {
    var plan := [[], [b], [], []] + later;
    assert Planned(plan, 0) == [] && Planned(plan, 1) == [b] && Planned(plan, 2) == [] && Planned(plan, 3) == [];
    assert Publish(h, None, [b]) == h + [b] by { assert [b][1..] == []; }
    assert Rest(Rest(Rest(Rest(plan)))) == later;
  }

  lemma TwoReplacementsRetry(a: File, b: File, c: File, later: seq<seq<File>>)
    requires a.inode != b.inode && b.inode != c.inode && |b.content| <= MAX_JSON_BYTES && |c.content| <= MAX_JSON_BYTES
    ensures Required([a], [[], [b], [], []] + ([[], [c], [], []] + later), 3) == Required([a, b, c], later, 1)
  {
    var second := [[], [c], [], []] + later;
    OneReplacementRetries([a], a, b, second);
    assert [a] + [b] == [a, b] && [a, b] + [c] == [a, b, c];
    assert Required([a], [[], [b], [], []] + second, 3) == Required([a, b], second, 2);
    OneReplacementRetries([a, b], b, c, later);
  }

  /** A writer that replaces the file during the opening is waited for twice: the third attempt reads the third version. */
  method ReadRetriesTwice(a: File, b: File, c: File) returns (r: Option<seq<Byte>>)
    requires a.inode != b.inode && b.inode != c.inode
    requires |a.content| <= MAX_JSON_BYTES && |b.content| <= MAX_JSON_BYTES && |c.content| <= MAX_JSON_BYTES
    ensures r == Some(c.content)
  {
    var reader := new Reader(a, [[], [b], [], []] + ([[], [c], [], []] + []));
    TwoReplacementsRetry(a, b, c, []);
    QuietFinds([a, b, c], []);
    assert Required([a, b, c], [], 1) == MustBe(c.content);
    r := reader.Read();
  }

  /** But no more than twice. */
  method ReadGivesUp(a: File, b: File, c: File, d: File, later: seq<seq<File>>) returns (r: Option<seq<Byte>>)
    requires a.inode != b.inode && b.inode != c.inode && c.inode != d.inode
    requires |a.content| <= MAX_JSON_BYTES && |b.content| <= MAX_JSON_BYTES && |c.content| <= MAX_JSON_BYTES && |d.content| <= MAX_JSON_BYTES
    ensures r == None
  {
    var third := [[], [d], [], []] + later;
    var reader := new Reader(a, [[], [b], [], []] + ([[], [c], [], []] + third));
    TwoReplacementsRetry(a, b, c, third);
    OneReplacementRetries([a, b, c], c, d, later);
    assert Required([a, b, c], third, 1) == Required([a, b, c] + [d], later, 0);
    r := reader.Read();
  }

  /** Such a run: the reader is given an error after its first attempt, however still the file is afterwards. */
  method ReadFailsAtOnce(a: File, b: File, c: File, later: seq<seq<File>>) returns (r: Option<seq<Byte>>)
    requires a.inode != b.inode && b.inode != c.inode && a.inode != c.inode
    requires |a.content| <= MAX_JSON_BYTES && |b.content| <= MAX_JSON_BYTES && |c.content| <= MAX_JSON_BYTES
    requires later == [] || later[0] == []
    ensures r == None
  {
    var reader := new Reader(a, [[], [b], [c]] + later);
    TwoReplacementsRefuse(a, b, c, later);
    r := reader.Read();
  }
}
