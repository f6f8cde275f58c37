/** Which rows are the same movement, and what keys say as text: first keys, historical spellings, rows of others. */
module KeyHistory {
  import opened Base
  import opened KeyText
  import opened MovementKeys
  import opened MovementTheorems
  import opened KeyStability
  import opened KeyAgreement
  import opened KeyOrdering
  import opened KeyRerun

  // ----- the same movement

  /** With a folio seven fields decide, without one four; a movement with a folio is never one without. */
  lemma SameMovementIff(m: Movement, n: Movement)
    ensures Identify(m) == Identify(n) <==>
      && m.rawFolio.Some? == n.rawFolio.Some?
      && m.fields.fecha == n.fields.fecha && m.fields.cuaderno == n.fields.cuaderno
      && m.fields.tramite == n.fields.tramite && m.fields.descripcion == n.fields.descripcion
      && (m.rawFolio.Some? ==>
            m.fields.folio == n.fields.folio && m.fields.etapa == n.fields.etapa && m.fields.foja == n.fields.foja)
  {
    var a, b := Identify(m), Identify(n);
    if a == b {
      assert |a| == |b|;
      assert a[0] == b[0] && a[1] == b[1] && a[2] == b[2] && a[3] == b[3] && a[4] == b[4];
      if m.rawFolio.Some? {
        assert a[5] == b[5] && a[6] == b[6];
      }
    }
  }

  /** Undated rows are left out; every dated one is listed once with its base, and nothing else is. */
  lemma ListedIff(c: Case, ms: seq<Movement>, stored: seq<Stored>, n: Movement)
    ensures (exists m, key :: (m, key) in Prepared(c, ms, stored) && BaseOf(c, m) == BaseOf(c, n) && Identify(m) == Identify(n))
      <==> exists m :: m in ms && m.rawFecha != "" && BaseOf(c, m) == BaseOf(c, n) && Identify(m) == Identify(n)
  {
    PreparedIsWanted(c, ms, stored, BaseOf(c, n), Identify(n));
    if m :| m in ms && m.rawFecha != "" && BaseOf(c, m) == BaseOf(c, n) && Identify(m) == Identify(n) {
      assert Duplicate(c, ms, BaseOf(c, n), Identify(n), m);
    }
    if Wanted(c, ms, BaseOf(c, n), Identify(n)) {
      var m :| Duplicate(c, ms, BaseOf(c, n), Identify(n), m);
    }
  }

  // ----- nothing is lost, field by field

  /** Values that are present and not empty. */
  function Present(g: Group): set<nat> {
    set i: nat | i < |g| && g[i].Some? && g[i].value != ""
  }

  function Shifted(a: set<nat>): set<nat> {
    set i | i in a :: i + 1
  }

  lemma PresentCons(g: Group)
    requires g != []
    ensures Present(g) == Shifted(Present(g[1..])) + (if Truthy(g[0]) == 1 then {0} else {})
  {
    var rest := g[1..];
    forall i: nat ensures i in Shifted(Present(rest)) <==> i > 0 && i in Present(g) {
      if i > 0 {
        assert i - 1 < |rest| ==> rest[i - 1] == g[i];
        if i in Present(g) { assert i - 1 in Present(rest); }
      }
    }
  }

  lemma {:induction false} ScoreCounts(g: Group)
    ensures Score(g) == |Present(g)|
  {
    if g != [] {
      ScoreCounts(g[1..]);
      PresentCons(g);
      ShiftedCard(Present(g[1..]), Shifted(Present(g[1..])));
      assert 0 !in Shifted(Present(g[1..]));
    }
  }

  lemma {:induction false} ShiftedCard(a: set<nat>, b: set<nat>)
    requires b == Shifted(a)
    ensures |a| == |b|
    decreases |a|
  {
    if a != {} {
      var x :| x in a;
      var rest := Shifted(a - {x});
      ShiftedCard(a - {x}, rest);
      assert b == rest + {x + 1} by {
        forall i: nat ensures i in b <==> i in rest + {x + 1} {
          if i in b { var j :| j in a && i == j + 1; assert j == x || j in a - {x}; }
          if i in rest { var j :| j in a - {x} && i == j + 1; assert j in a; }
        }
      }
    }
  }

  /** One of the scraped duplicates of a row. */
  predicate Same(c: Case, ms: seq<Movement>, row: Movement, m: Movement) {
    m in ms && m.rawFecha != "" && BaseOf(c, m) == BaseOf(c, row) && Identify(m) == Identify(row)
  }

  predicate Among(ds: seq<Document>, d: Document) {
    exists e | e in ds :: e.url == d.url && e.token == d.token && e.param == d.param
  }

  /** A listed row has, whole, the linked values of a duplicate of it that has most of them; and a document with some url,
      token and param exactly if one of its duplicates has. */
  lemma RowIsFullest(c: Case, ms: seq<Movement>, stored: seq<Stored>, row: Movement, key: string)
    requires (row, key) in Prepared(c, ms, stored)
    ensures exists m :: Same(c, ms, row, m) && m.primary == row.primary
    ensures forall m | Same(c, ms, row, m) :: |Present(m.primary)| <= |Present(row.primary)|
    ensures exists m :: Same(c, ms, row, m) && m.anexo == row.anexo
    ensures forall m | Same(c, ms, row, m) :: |Present(m.anexo)| <= |Present(row.anexo)|
    ensures forall d :: Among(row.documents, d) <==> exists m :: Same(c, ms, row, m) && Among(m.documents, d)
  {
    PreparedGets(c, ms, stored, row, key);
    var base := BaseOf(c, row);
    CollapsingLosesNothing(c, ms, base, row);
    forall m: Movement
      ensures Same(c, ms, row, m) <==> Duplicate(c, ms, base, Identify(row), m)
      ensures Score(m.primary) == |Present(m.primary)| && Score(m.anexo) == |Present(m.anexo)|
    {
      ScoreCounts(m.primary);
      ScoreCounts(m.anexo);
    }
    forall ds, d ensures Among(ds, d) <==> DocumentIdOf(d) in DocumentIds(ds) {
      HasDocument(ds, d);
    }
  }

  lemma HasDocument(ds: seq<Document>, d: Document)
    ensures Among(ds, d) <==> DocumentIdOf(d) in DocumentIds(ds)
  {
    if e :| e in ds && e.url == d.url && e.token == d.token && e.param == d.param {
      var i :| 0 <= i < |ds| && ds[i] == e;
      assert DocumentIdOf(ds[i]) == DocumentIdOf(d);
    }
  }

  // ----- keys as text

  /** The key of a case number, cuaderno and folio. */
  function Text(number: string, cuaderno: string, folio: string): string {
    number + ":" + cuaderno + ":" + folio
  }

  lemma TextIs(number: string, m: Movement)
    requires m.rawFolio.Some?
    ensures FolioKey(number, m) == Text(number, m.rawCuaderno, m.rawFolio.value)
  {
    assert number + ":" + (m.rawCuaderno + ":" + m.rawFolio.value) == number + ":" + m.rawCuaderno + ":" + m.rawFolio.value;
  }

  /** The first movement of an empty case is given its number, cuaderno and folio, or a digest where there is no folio. */
  lemma FirstKeyIsText(c: Case, m: Movement)
    requires m.rawFecha != ""
    ensures Prepared(c, [m], []) ==
      [(m, if m.rawFolio.Some? then Text(c.number, m.rawCuaderno, m.rawFolio.value)
           else "pjud:null-folio:" + c.digest([m.fields.fecha, m.fields.cuaderno, m.fields.tramite, m.fields.descripcion]))]
  {
    var base := BaseOf(c, m);
    if m.rawFolio.Some? { TextIs(c.number, m); }
    OnePrepared(c, m, [], base);
    FirstKey(c, [], base, m);
    PairAt([m], [base]);
  }

  /** A key spelled with this number: as it is, or with a suffix number. */
  ghost predicate Spelled(key: string, number: string, m: Movement) {
    m.rawFolio.Some?
    && (key == Text(number, m.rawCuaderno, m.rawFolio.value)
        || exists digits :: SuffixedWith(key, number, m, digits))
  }

  predicate SuffixedWith(key: string, number: string, m: Movement, digits: string) {
    m.rawFolio.Some? && digits != [] && AllDigits(digits) && key == Text(number, m.rawCuaderno, m.rawFolio.value) + "#" + digits
  }

  lemma SpelledIff(key: string, number: string, m: Movement)
    requires m.rawFolio.Some?
    ensures Spelled(key, number, m) <==> IsKeyForBase(key, FolioKey(number, m))
  {
    TextIs(number, m);
    var base := FolioKey(number, m);
    if IsKeyForBase(key, base) && key != base {
      var digits := key[|base| + 1..];
      assert key == base + "#" + digits;
      assert SuffixedWith(key, number, m, digits);
    }
    if digits :| SuffixedWith(key, number, m, digits) {
      assert key[..|base|] == base && key[|base| + 1..] == digits;
    }
  }

  lemma AliasIsABase(c: Case, m: Movement, a: string)
    requires m.rawFolio.Some? && a in c.aliases
    ensures FolioKey(a, m) in BasesOf(c, m)
  {
    var k :| 0 <= k < |c.aliases| && c.aliases[k] == a;
    assert BasesOf(c, m)[k + 1] == FolioKey(a, m);
  }

  /** A movement stored once, under a historical spelling of the case number, keeps that key. */
  lemma HistoricalSpellingIsKept(c: Case, ms: seq<Movement>, stored: seq<Stored>, m: Movement, a: string, key: string)
    requires UniqueKeys(stored) && a in c.aliases && Spelled(key, a, m) && key != ""
    requires m in ms && m.rawFecha != "" && Stored(key, Some(m)) in stored
    requires forall e | e in stored && e.payload.Some? && BaseOf(c, e.payload.value) == BaseOf(c, m)
                        && Identify(e.payload.value) == Identify(m) :: e == Stored(key, Some(m))
    ensures exists row :: (row, key) in Prepared(c, ms, stored) && BaseOf(c, row) == BaseOf(c, m) && Identify(row) == Identify(m)
    ensures forall row, k | (row, k) in Prepared(c, ms, stored) && BaseOf(c, row) == BaseOf(c, m) && Identify(row) == Identify(m) ::
      k == key
  {
    var base, id, e := BaseOf(c, m), Identify(m), Stored(key, Some(m));
    SpelledIff(key, a, m);
    AliasIsABase(c, m, a);
    FirstMatchIs(BasesOf(c, m), key);
    assert StoredFor(c, e, base, id);
    UniqueKeysAreEnough(c, stored);
    forall k | Gets(c, ms, stored, base, id, k) ensures k == key {
      assert StoredKey(c, stored, base, id, key);
      GetsOrigin(c, ms, stored, base, id, k);
      var x :| x in stored && StoredFor(c, x, base, id) && x.key == k;
    }
    assert Duplicate(c, ms, base, id, m);
    WantedGets(c, ms, stored, base, id);
    GetsPrepared(c, ms, stored, base, id, key);
    forall row, k | (row, k) in Prepared(c, ms, stored) && BaseOf(c, row) == base && Identify(row) == id ensures k == key {
      PreparedGets(c, ms, stored, row, k);
    }
  }

  // ----- rows that are not the worker's, or not of this case

  /** No key, no payload, or a key that spells neither the case number nor one of its historical spellings. */
  ghost predicate Foreign(c: Case, e: Stored) {
    || e.key == "" || e.payload == None
    || var m := e.payload.value;
       if m.rawFolio.Some? then !Spelled(e.key, c.number, m) && forall a | a in c.aliases :: !Spelled(e.key, a, m)
       else !IsKeyForBase(e.key, "pjud:null-folio:" + c.digest([m.fields.fecha, m.fields.cuaderno, m.fields.tramite, m.fields.descripcion]))
  }

  lemma ForeignIff(c: Case, e: Stored)
    ensures Foreign(c, e) <==> Recognise(c, e) == None
  {
    if e.key != "" && e.payload.Some? {
      var m := e.payload.value;
      var bases := BasesOf(c, m);
      FirstMatchIs(bases, e.key);
      if m.rawFolio.Some? {
        SpelledIff(e.key, c.number, m);
        forall a | a in c.aliases ensures FolioKey(a, m) in bases && (Spelled(e.key, a, m) <==> IsKeyForBase(e.key, FolioKey(a, m))) {
          AliasIsABase(c, m, a);
          SpelledIff(e.key, a, m);
        }
        forall b | b in bases ensures b == FolioKey(c.number, m) || exists a :: a in c.aliases && b == FolioKey(a, m) {
          var i :| 0 <= i < |bases| && bases[i] == b;
          if i > 0 { assert c.aliases[i - 1] in c.aliases; }
        }
      } else {
        assert bases == [BaseOf(c, m)];
      }
    }
  }

  lemma ForeignChangesNoIndex(c: Case, stored: seq<Stored>, e: Stored, base: string, id: Identity)
    requires Foreign(c, e)
    ensures HistoricalKeys(c, stored + [e], base, id) == HistoricalKeys(c, stored, base, id)
    ensures ReservedKeys(c, stored + [e], base) == ReservedKeys(c, stored, base)
  {
    ForeignIff(c, e);
    assert (stored + [e])[..|stored|] == stored;
  }

  lemma {:induction false} ForeignChangesNoKey(c: Case, stored: seq<Stored>, e: Stored, base: string, rows: seq<Movement>)
    requires Foreign(c, e)
    ensures AssignKeys(c, stored + [e], base, rows) == AssignKeys(c, stored, base, rows)
  {
    if rows != [] {
      ForeignChangesNoKey(c, stored, e, base, rows[..|rows| - 1]);
      ForeignChangesNoIndex(c, stored, e, base, Identify(rows[|rows| - 1]));
    }
  }

  lemma {:induction false} ForeignChangesNoBase(c: Case, ms: seq<Movement>, stored: seq<Stored>, e: Stored, bases: seq<string>)
    requires Foreign(c, e)
    ensures PrepareBases(c, ms, stored + [e], bases) == PrepareBases(c, ms, stored, bases)
  {
    if bases != [] {
      var b := bases[|bases| - 1];
      ForeignChangesNoBase(c, ms, stored, e, bases[..|bases| - 1]);
      ForeignChangesNoKey(c, stored, e, b, Sorted(c, ms, b));
    }
  }

  /** Such a row changes nothing. */
  lemma ForeignRowsAreIgnored(c: Case, ms: seq<Movement>, stored: seq<Stored>, e: Stored)
    requires Foreign(c, e)
    ensures Prepared(c, ms, stored + [e]) == Prepared(c, ms, stored)
  {
    ForeignChangesNoBase(c, ms, stored, e, BaseOrder(c, ms));
  }

  // ----- which key comes first

  /** Of the suffix numbers stored for a movement the lowest is kept. */
  lemma LowestNumberIsKept(c: Case, ms: seq<Movement>, stored: seq<Stored>, base: string, id: Identity, x: nat, y: nat)
    requires UniqueStored(c, stored) && x >= 1 && y >= 1
    requires StoredKey(c, stored, base, id, Candidate(base, x)) && Gets(c, ms, stored, base, id, Candidate(base, y))
    ensures y <= x
  {
    GetsOrigin(c, ms, stored, base, id, Candidate(base, y));
    assert Leq(KeyOrder(base, Candidate(base, y)), KeyOrder(base, Candidate(base, x)));
    RankOfCandidate(base, x);
    RankOfCandidate(base, y);
  }

  /** The number of a historical key counts as such; without one it comes after the base and before `#2`. */
  lemma RankOfHistorical(base: string, old_: string, n: nat)
    requires n >= 1 && Candidate(old_, n) != base && !HasSuffixNumber(old_)
    ensures Rank(Candidate(old_, n), base) == n
  {
    if n > 1 {
      var key := Candidate(old_, n);
      CandidateIsKey(old_, n);
      KeyHasSuffixNumber(key, old_);
      assert key[|old_| + 1..] == Decimal(n);
      ValueOfDecimal(n);
    }
  }

  predicate HasPrimaryFields(m: Movement) {
    m.fields.tramite != "" || m.fields.etapa != ""
  }

  /** Strings are compared character by character. */
  lemma {:induction false} StringLeqIff(a: string, b: string)
    ensures StringLeq(a, b) <==> a <= b || exists k: nat :: k < |a| && k < |b| && a[..k] == b[..k] && a[k] < b[k]
  {
    if a != [] && b != [] {
      StringLeqIff(a[1..], b[1..]);
      forall k: nat | 0 < k <= |a| && k <= |b| && a[..k] == b[..k] ensures a[0] == b[0] {
        assert a[..k][0] == b[..k][0];
      }
      if a[0] == b[0] {
        if k: nat :| k < |a[1..]| && k < |b[1..]| && a[1..][..k] == b[1..][..k] && a[1..][k] < b[1..][k] {
          assert a[..k + 1] == [a[0]] + a[1..][..k] && b[..k + 1] == [b[0]] + b[1..][..k];
          assert a[..k + 1] == b[..k + 1] && a[k + 1] < b[k + 1];
        }
        if k: nat :| k < |a| && k < |b| && a[..k] == b[..k] && a[k] < b[k] {
          assert k > 0 && a[1..][..k - 1] == a[..k][1..] && b[1..][..k - 1] == b[..k][1..];
          assert a[1..][k - 1] < b[1..][k - 1];
        }
        if a[1..] <= b[1..] { assert a == [a[0]] + a[1..] && b == [b[0]] + b[1..]; assert a <= b; }
        if a <= b { assert a[1..] <= b[1..]; }
      } else {
        assert a[..0] == b[..0];
      }
    }
  }

  /** Of two new movements of a base the one that sorts first is given the lower number: rows with a tramite or an etapa
      come before the others, and otherwise the digests decide. */
  lemma NewNumbersFollowOrder(c: Case, ms: seq<Movement>, stored: seq<Stored>, base: string, i: nat, j: nat) returns (x: nat, y: nat)
    requires UniqueStored(c, stored) && i < j < |Sorted(c, ms, base)|
    requires IsNew(c, stored, base, Identify(Sorted(c, ms, base)[i])) && IsNew(c, stored, base, Identify(Sorted(c, ms, base)[j]))
    ensures 1 <= x < y && Keys(c, ms, stored, base)[i] == Candidate(base, x) && Keys(c, ms, stored, base)[j] == Candidate(base, y)
    ensures var m, n := Sorted(c, ms, base)[i], Sorted(c, ms, base)[j];
      && (HasPrimaryFields(n) ==> HasPrimaryFields(m))
      && (HasPrimaryFields(n) == HasPrimaryFields(m) ==> StringLeq(c.digest(Identify(m)), c.digest(Identify(n))))
  {
    var rows := Sorted(c, ms, base);
    SortedFacts(c, ms, base);
    x := FreshAt(c, stored, base, rows, i);
    y := FreshAt(c, stored, base, rows, j);
    MoreBefore(c, stored, base, rows, i, j);
    var reserved := ReservedKeys(c, stored, base);
    if y < x {
      FreeBelowGrows(base, reserved, y, x);
    }
    assert Leq(MovementSortKey(c, rows[i]), MovementSortKey(c, rows[j]));
  }
}
