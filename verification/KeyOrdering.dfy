/** Whether the order of scraped and stored rows matters for the keys, and when exactly it does. */
module KeyOrdering {
  import opened Base
  import opened KeyText
  import opened MovementKeys
  import opened MovementTheorems
  import opened KeyStability
  import opened KeyAgreement

  ghost predicate Injective(c: Case) {
    forall a, b :: c.digest(a) == c.digest(b) ==> a == b
  }

  predicate Before(c: Case, m: Movement, n: Movement) {
    Leq(MovementSortKey(c, m), MovementSortKey(c, n))
  }

  /** Which of two logical movements of one base sorts first depends on which duplicate stands for one of them. */
  ghost predicate Flip(c: Case, ms: seq<Movement>, base: string, m1: Movement, n: Movement, m2: Movement) {
    && Duplicate(c, ms, base, Identify(m1), m1) && Duplicate(c, ms, base, Identify(m1), m2)
    && Duplicate(c, ms, base, Identify(n), n) && Identify(n) != Identify(m1)
    && Before(c, m1, n) && Before(c, n, m2)
  }

  ghost predicate Flips(c: Case, ms: seq<Movement>, base: string) {
    exists m1, n, m2 :: Flip(c, ms, base, m1, n, m2)
  }

  /** And neither of the two is stored. */
  ghost predicate FreshFlips(c: Case, ms: seq<Movement>, stored: seq<Stored>, base: string) {
    exists m1, n, m2 :: Flip(c, ms, base, m1, n, m2) && IsNew(c, stored, base, Identify(m1)) && IsNew(c, stored, base, Identify(n))
  }

  // ----- it can only be so where folio and null-folio rows share a base

  /** A case number that cannot make a folio key look like a null-folio key. */
  predicate NumberApart(c: Case) {
    ':' !in c.number && c.number != "pjud"
  }

  lemma BaseKinds(c: Case, m: Movement, n: Movement)
    requires NumberApart(c) && BaseOf(c, m) == BaseOf(c, n)
    ensures m.rawFolio.Some? == n.rawFolio.Some?
  {
    if m.rawFolio.Some? && n.rawFolio == None { FolioBaseIsNotNull(c, m, n); }
    if n.rawFolio.Some? && m.rawFolio == None { FolioBaseIsNotNull(c, n, m); }
  }

  lemma FolioBaseIsNotNull(c: Case, m: Movement, n: Movement)
    requires NumberApart(c) && m.rawFolio.Some? && n.rawFolio == None
    ensures BaseOf(c, m) != BaseOf(c, n)
  {
    var b, d := BaseOf(c, m), BaseOf(c, n);
    var k := |c.number|;
    assert b[k] == ':' && b[..k] == c.number;
    assert d[..4] == "pjud" && d[4] == ':';
    if k < 4 {
      assert d[k] == "pjud"[k];
    } else if k == 4 {
      assert b[..4] == c.number;
    } else {
      assert b[4] == c.number[4];
    }
  }

  /** In one base, rows of equal identity sort alike; a null-folio base has a single identity. */
  lemma SortKeysAgree(c: Case, base: string, m: Movement, n: Movement)
    requires Injective(c) && NumberApart(c) && InGroup(c, m, base) && InGroup(c, n, base)
    ensures m.rawFolio.Some? && Identify(m) == Identify(n) ==> MovementSortKey(c, m) == MovementSortKey(c, n)
    ensures m.rawFolio == None ==> Identify(m) == Identify(n)
  {
    BaseKinds(c, m, n);
    var f, g := m.fields, n.fields;
    if m.rawFolio == None {
      var x, y := [f.fecha, f.cuaderno, f.tramite, f.descripcion], [g.fecha, g.cuaderno, g.tramite, g.descripcion];
      assert c.digest(x) == BaseOf(c, m)[|NULL_FOLIO_PREFIX|..] == BaseOf(c, n)[|NULL_FOLIO_PREFIX|..] == c.digest(y);
      assert x == y;
      assert x[0] == y[0] && x[1] == y[1] && x[2] == y[2] && x[3] == y[3];
    } else if Identify(m) == Identify(n) {
      assert Identify(m)[3] == f.tramite && Identify(n)[3] == g.tramite;
      assert Identify(m)[5] == f.etapa && Identify(n)[5] == g.etapa;
    }
  }

  lemma KeysDiffer(c: Case, m: Movement, n: Movement)
    requires Injective(c) && Identify(m) != Identify(n)
    ensures MovementSortKey(c, m) != MovementSortKey(c, n)
    ensures Before(c, m, n) <==> !Before(c, n, m)
  {
    LeqTotal(MovementSortKey(c, m), MovementSortKey(c, n));
    if Before(c, m, n) && Before(c, n, m) {
      LeqAntisymmetric(MovementSortKey(c, m), MovementSortKey(c, n));
    }
  }

  lemma NumberApartNeverFlips(c: Case, ms: seq<Movement>, base: string)
    requires Injective(c) && NumberApart(c)
    ensures !Flips(c, ms, base)
    ensures forall stored :: !FreshFlips(c, ms, stored, base)
  {
    forall m1, n, m2 |
      && Duplicate(c, ms, base, Identify(m1), m1) && Duplicate(c, ms, base, Identify(m1), m2)
      && Duplicate(c, ms, base, Identify(n), n) && Identify(n) != Identify(m1)
      && Before(c, m1, n)
      ensures !Before(c, n, m2)
    {
      SortKeysAgree(c, base, m1, n);
      SortKeysAgree(c, base, m1, m2);
      KeysDiffer(c, m1, n);
    }
  }

  /** A flip exists: in a case numbered `pjud`, two null-folio duplicates that differ in their etapa, and a movement of
      cuaderno `null-folio` whose folio is the digest of their fields. */
  lemma DigestFolioFlips(c: Case, m1: Movement, m2: Movement, n: Movement)
    requires c.number == "pjud" && m1.rawFolio == None && m1.rawFecha != "" && n.rawFecha != ""
    requires m1.fields.tramite == "" && m1.fields.etapa != "" && m2 == m1.(fields := m1.fields.(etapa := ""))
    requires n.rawCuaderno == "null-folio"
    requires n.rawFolio == Some(c.digest([m1.fields.fecha, m1.fields.cuaderno, "", m1.fields.descripcion]))
    requires if n.fields.tramite != "" || n.fields.etapa != "" then StringLeq(c.digest(Identify(m1)), c.digest(Identify(n)))
             else StringLeq(c.digest(Identify(n)), c.digest(Identify(m1)))
    ensures FreshFlips(c, [m1, n, m2], [], BaseOf(c, m1))
  {
    var base := BaseOf(c, m1);
    assert Identify(m2) == Identify(m1);
    assert BaseOf(c, m2) == base;
    assert BaseOf(c, n) == "pjud" + ":" + ("null-folio" + ":" + n.rawFolio.value);
    assert NULL_FOLIO_PREFIX == "pjud" + ":" + "null-folio" + ":";
    assert BaseOf(c, n) == base;
    assert |Identify(n)| != |Identify(m1)|;
    assert Flip(c, [m1, n, m2], base, m1, n, m2);
  }

  // ----- one injective digest under which a flip exists

  /** Every character is marked, and so is the end of a part. */
  function Spell(s: string): string {
    if s == [] then "e" else ['c', s[0]] + Spell(s[1..])
  }

  function SpellAll(id: Identity): string {
    if id == [] then "" else Spell(id[0]) + SpellAll(id[1..])
  }

  lemma {:induction false} SpellIsPrefixFree(a: string, x: string, b: string, y: string)
    requires Spell(a) + x == Spell(b) + y
    ensures a == b && x == y
    decreases |a|
  {
    var l, r := Spell(a) + x, Spell(b) + y;
    assert l[0] == r[0];
    if a == [] {
      assert b == [];
      assert l[1..] == x && r[1..] == y;
    } else {
      assert b != [];
      assert l[1] == a[0] && r[1] == b[0];
      assert l[2..] == Spell(a[1..]) + x && r[2..] == Spell(b[1..]) + y;
      SpellIsPrefixFree(a[1..], x, b[1..], y);
      assert a == [a[0]] + a[1..] && b == [b[0]] + b[1..];
    }
  }

  lemma {:induction false} SpellAllIsInjective(a: Identity, b: Identity)
    requires SpellAll(a) == SpellAll(b)
    ensures a == b
    decreases |a|
  {
    if a != [] && b != [] {
      SpellIsPrefixFree(a[0], SpellAll(a[1..]), b[0], SpellAll(b[1..]));
      SpellAllIsInjective(a[1..], b[1..]);
      assert a == [a[0]] + a[1..] && b == [b[0]] + b[1..];
    }
  }

  lemma FlipExists() returns (c: Case, ms: seq<Movement>, base: string)
    ensures Injective(c) && FreshFlips(c, ms, [], base)
  {
    c := Case("pjud", [], SpellAll);
    forall a, b | c.digest(a) == c.digest(b) ensures a == b { SpellAllIsInjective(a, b); }
    var folio := SpellAll(["", "", "", ""]);
    var m1 := Movement("1", "", None, Fields("", "", "", "", "", "e", ""), [], [], []);
    var m2 := m1.(fields := m1.fields.(etapa := ""));
    var n := Movement("1", "null-folio", Some(folio), Fields(folio, "", "", "", "", "", ""), [], [], []);
    base := BaseOf(c, m1);
    ms := [m1, n, m2];
    assert folio[0] == 'e' && Spell(folio)[0] == 'c';
    assert c.digest(Identify(n))[0] == 'c' && c.digest(Identify(m1))[0] == 'e';
    DigestFolioFlips(c, m1, m2, n);
  }

  // ----- a row stands for the first of its duplicates

  /** In a longer list every row of a group keeps the fields it was first seen with. */
  lemma {:induction false} RowsKeepFields(c: Case, ms: seq<Movement>, more: seq<Movement>, base: string, i: nat)
    requires i < |GroupRows(c, ms, base)|
    ensures i < |GroupRows(c, ms + more, base)|
    ensures var row, row' := GroupRows(c, ms, base)[i], GroupRows(c, ms + more, base)[i];
      row'.fields == row.fields && row'.rawFolio == row.rawFolio
  {
    if more == [] {
      assert ms + more == ms;
    } else {
      RowsKeepFields(c, ms, more[..|more| - 1], base, i);
      assert (ms + more)[..|ms + more| - 1] == ms + more[..|more| - 1];
    }
  }

  lemma {:induction false} RowIsDuplicate(c: Case, ms: seq<Movement>, base: string, row: Movement)
    requires row in GroupRows(c, ms, base)
    ensures exists m :: Duplicate(c, ms, base, Identify(row), m) && MovementSortKey(c, m) == MovementSortKey(c, row)
  {
    var init, last := ms[..|ms| - 1], ms[|ms| - 1];
    var rows := GroupRows(c, init, base);
    var i :| 0 <= i < |GroupRows(c, ms, base)| && GroupRows(c, ms, base)[i] == row;
    if i < |rows| {
      RowIsDuplicate(c, init, base, rows[i]);
      var m :| Duplicate(c, init, base, Identify(rows[i]), m) && MovementSortKey(c, m) == MovementSortKey(c, rows[i]);
      assert Identify(row) == Identify(rows[i]);
      assert Duplicate(c, ms, base, Identify(row), m);
    } else {
      assert row == last && Duplicate(c, ms, base, Identify(row), last);
    }
  }

  // ----- without a flip the order is one

  /** Two lists order their common identities alike. */
  ghost predicate Alike(c: Case, r: seq<Movement>, s: seq<Movement>) {
    forall m, n, m', n' {:trigger Before(c, m, n), Before(c, m', n')} | m in r && n in r && m' in s && n' in s
        && Identify(m) == Identify(m') && Identify(n) == Identify(n') && Identify(m) != Identify(n) ::
      Before(c, m, n) <==> Before(c, m', n')
  }

  /** Representatives of two new identities that compare differently make a flip. */
  lemma DifferenceFlips(c: Case, ms: seq<Movement>, stored: seq<Stored>, base: string,
                        m: Movement, n: Movement, m': Movement, n': Movement)
    requires Injective(c)
    requires IsNew(c, stored, base, Identify(m)) && IsNew(c, stored, base, Identify(n))
    requires Duplicate(c, ms, base, Identify(m), m) && Duplicate(c, ms, base, Identify(m), m')
    requires Duplicate(c, ms, base, Identify(n), n) && Duplicate(c, ms, base, Identify(n), n')
    requires Identify(m) != Identify(n) && Before(c, m, n) && Before(c, n', m')
    ensures FreshFlips(c, ms, stored, base)
  {
    KeysDiffer(c, n, m');
    if Before(c, n, m') {
      assert Flip(c, ms, base, m, n, m');
    } else {
      assert Flip(c, ms, base, n', m', n);
    }
  }

  function Ids(rows: seq<Movement>): seq<Identity> {
    if rows == [] then [] else [Identify(rows[0])] + Ids(rows[1..])
  }

  lemma IdSetCons(rows: seq<Movement>)
    requires rows != [] && DistinctIds(rows)
    ensures IdSet(rows[1..]) == IdSet(rows) - {Identify(rows[0])} && DistinctIds(rows[1..])
  {
    assert forall i | 0 <= i < |rows[1..]| :: rows[1..][i] == rows[i + 1];
    forall id | id in IdSet(rows) && id != Identify(rows[0]) ensures id in IdSet(rows[1..]) {
      var i :| 0 <= i < |rows| && Identify(rows[i]) == id;
      assert rows[1..][i - 1] == rows[i];
    }
  }

  /** A set of identities has one sorted enumeration. */
  lemma {:induction false} SortedIsUnique(c: Case, r: seq<Movement>, s: seq<Movement>)
    requires Injective(c) && InOrder(c, r) && InOrder(c, s) && DistinctIds(r) && DistinctIds(s)
    requires IdSet(r) == IdSet(s) && Alike(c, r, s)
    ensures Ids(r) == Ids(s)
    decreases |r|
  {
    DistinctCard(r);
    DistinctCard(s);
    if r != [] {
      assert Identify(r[0]) in IdSet(s);
      assert s != [];
      assert Identify(s[0]) in IdSet(r);
      SameFirst(c, r, s);
      IdSetCons(r);
      IdSetCons(s);
      SortedIsUnique(c, r[1..], s[1..]);
    }
  }

  lemma SameFirst(c: Case, r: seq<Movement>, s: seq<Movement>)
    requires Injective(c) && InOrder(c, r) && InOrder(c, s) && Alike(c, r, s) && r != [] && s != []
    requires Identify(r[0]) in IdSet(s) && Identify(s[0]) in IdSet(r)
    ensures Identify(r[0]) == Identify(s[0])
  {
    var i :| 0 <= i < |r| && Identify(r[i]) == Identify(s[0]);
    var j :| 0 <= j < |s| && Identify(s[j]) == Identify(r[0]);
    assert (i == 0 || Before(c, r[0], r[i])) && (j == 0 || Before(c, s[0], s[j]));
    if Identify(r[0]) != Identify(s[0]) {
      KeysDiffer(c, s[0], s[j]);
    }
  }

  lemma {:induction false} IdsAt(rows: seq<Movement>)
    ensures |Ids(rows)| == |rows| && forall i | 0 <= i < |rows| :: Ids(rows)[i] == Identify(rows[i])
  {
    if rows != [] {
      IdsAt(rows[1..]);
      assert forall i | 1 <= i < |rows| :: rows[i] == rows[1..][i - 1];
    }
  }

  lemma SameElements<T>(a: seq<T>, b: seq<T>)
    requires multiset(a) == multiset(b)
    ensures forall x :: x in a <==> x in b
  {
    forall x ensures x in a <==> x in b { assert x in a <==> x in multiset(a); assert x in b <==> x in multiset(b); }
  }

  lemma {:induction false} NewRowsAre(c: Case, stored: seq<Stored>, base: string, rows: seq<Movement>)
    ensures forall m :: m in NewRows(c, stored, base, rows) <==> m in rows && IsNew(c, stored, base, Identify(m))
  {
    if rows != [] {
      NewRowsAre(c, stored, base, rows[..|rows| - 1]);
      assert rows == rows[..|rows| - 1] + [rows[|rows| - 1]];
    }
  }

  lemma SnocKeeps(c: Case, rows: seq<Movement>, m: Movement)
    requires InOrder(c, rows) && DistinctIds(rows)
    requires forall x | x in rows :: Before(c, x, m) && Identify(x) != Identify(m)
    ensures InOrder(c, rows + [m]) && DistinctIds(rows + [m])
  {
    var r := rows + [m];
    forall i, j | 0 <= i < j < |r| ensures Before(c, r[i], r[j]) && Identify(r[i]) != Identify(r[j]) {
      assert r[i] == rows[i] && rows[i] in rows;
      assert j < |rows| ==> r[j] == rows[j];
    }
  }

  /** The new movements among sorted rows are sorted. */
  lemma {:induction false} NewRowsInOrder(c: Case, stored: seq<Stored>, base: string, rows: seq<Movement>)
    requires InOrder(c, rows) && DistinctIds(rows)
    ensures InOrder(c, NewRows(c, stored, base, rows)) && DistinctIds(NewRows(c, stored, base, rows))
  {
    if rows != [] {
      var init, last := rows[..|rows| - 1], rows[|rows| - 1];
      NewRowsInOrder(c, stored, base, init);
      NewRowsAre(c, stored, base, init);
      forall x | x in init ensures Before(c, x, last) && Identify(x) != Identify(last) {
        var j :| 0 <= j < |init| && init[j] == x;
        assert rows[j] == x;
      }
      SnocKeeps(c, NewRows(c, stored, base, init), last);
    }
  }

  /** A new movement stands among the new ones after as many as come before it. */
  lemma {:induction false} NewRowAt(c: Case, stored: seq<Stored>, base: string, rows: seq<Movement>, i: nat)
    requires i < |rows| && IsNew(c, stored, base, Identify(rows[i]))
    ensures var news, k := NewRows(c, stored, base, rows), |NewRows(c, stored, base, rows[..i])|;
      k < |news| && news[k] == rows[i]
    decreases |rows|
  {
    var init := rows[..|rows| - 1];
    if i < |init| {
      NewRowAt(c, stored, base, init, i);
      assert init[..i] == rows[..i];
      assert NewRows(c, stored, base, init) <= NewRows(c, stored, base, rows);
    } else {
      assert rows[..i] == init;
      assert NewRows(c, stored, base, rows) == NewRows(c, stored, base, init) + [rows[i]];
    }
  }

  lemma SameNewIds(c: Case, ms1: seq<Movement>, ms2: seq<Movement>, stored: seq<Stored>, base: string)
    requires Injective(c) && !FreshFlips(c, ms1, stored, base) && multiset(ms1) == multiset(ms2)
    ensures Ids(NewRows(c, stored, base, Sorted(c, ms1, base))) == Ids(NewRows(c, stored, base, Sorted(c, ms2, base)))
  {
    var r, s := NewRows(c, stored, base, Sorted(c, ms1, base)), NewRows(c, stored, base, Sorted(c, ms2, base));
    SortedFacts(c, ms1, base);
    SortedFacts(c, ms2, base);
    NewRowsAre(c, stored, base, Sorted(c, ms1, base));
    NewRowsAre(c, stored, base, Sorted(c, ms2, base));
    NewRowsInOrder(c, stored, base, Sorted(c, ms1, base));
    NewRowsInOrder(c, stored, base, Sorted(c, ms2, base));
    SameElements(ms1, ms2);
    SameWanted(c, ms1, ms2, base);
    NewIdsAre(c, ms1, stored, base);
    NewIdsAre(c, ms2, stored, base);
    forall m, n, m', n' | m in r && n in r && m' in s && n' in s
        && Identify(m) == Identify(m') && Identify(n) == Identify(n') && Identify(m) != Identify(n)
      ensures Before(c, m, n) <==> Before(c, m', n')
    {
      KeysDiffer(c, m, n);
      KeysDiffer(c, m', n');
      if Before(c, m, n) {
        RowsCompareAlike(c, ms1, ms2, stored, base, m, n, m', n');
      } else {
        RowsCompareAlike(c, ms1, ms2, stored, base, n, m, n', m');
      }
    }
    SortedIsUnique(c, r, s);
  }

  lemma NewIdsAre(c: Case, ms: seq<Movement>, stored: seq<Stored>, base: string)
    ensures forall id :: id in IdSet(NewRows(c, stored, base, Sorted(c, ms, base)))
                         <==> Wanted(c, ms, base, id) && IsNew(c, stored, base, id)
  {
    var rows := Sorted(c, ms, base);
    var news := NewRows(c, stored, base, rows);
    SortedFacts(c, ms, base);
    NewRowsAre(c, stored, base, rows);
    forall id ensures id in IdSet(news) <==> id in IdSet(rows) && IsNew(c, stored, base, id) {
      if id in IdSet(news) {
        var i :| 0 <= i < |news| && Identify(news[i]) == id;
        assert news[i] in news;
      }
      if id in IdSet(rows) && IsNew(c, stored, base, id) {
        var i :| 0 <= i < |rows| && Identify(rows[i]) == id;
        assert rows[i] in news;
      }
    }
  }

  lemma RowsCompareAlike(c: Case, ms1: seq<Movement>, ms2: seq<Movement>, stored: seq<Stored>, base: string,
                         m: Movement, n: Movement, m': Movement, n': Movement)
    requires Injective(c) && !FreshFlips(c, ms1, stored, base) && forall x :: x in ms1 <==> x in ms2
    requires IsNew(c, stored, base, Identify(m)) && IsNew(c, stored, base, Identify(n))
    requires m in GroupRows(c, ms1, base) && n in GroupRows(c, ms1, base)
    requires m' in GroupRows(c, ms2, base) && n' in GroupRows(c, ms2, base)
    requires Identify(m) == Identify(m') && Identify(n) == Identify(n') && Identify(m) != Identify(n) && Before(c, m, n)
    ensures Before(c, m', n')
  {
    RowIsDuplicate(c, ms1, base, m);
    RowIsDuplicate(c, ms1, base, n);
    RowIsDuplicate(c, ms2, base, m');
    RowIsDuplicate(c, ms2, base, n');
    var a :| Duplicate(c, ms1, base, Identify(m), a) && MovementSortKey(c, a) == MovementSortKey(c, m);
    var b :| Duplicate(c, ms1, base, Identify(n), b) && MovementSortKey(c, b) == MovementSortKey(c, n);
    var a' :| Duplicate(c, ms2, base, Identify(m), a') && MovementSortKey(c, a') == MovementSortKey(c, m');
    var b' :| Duplicate(c, ms2, base, Identify(n), b') && MovementSortKey(c, b') == MovementSortKey(c, n');
    KeysDiffer(c, a', b');
    if Before(c, b', a') {
      DifferenceFlips(c, ms1, stored, base, a, b, a', b');
    }
  }

  lemma SameWanted(c: Case, a: seq<Movement>, b: seq<Movement>, base: string)
    requires multiset(a) == multiset(b)
    ensures forall id :: Wanted(c, a, base, id) <==> Wanted(c, b, base, id)
  {
    SameElements(a, b);
    forall id ensures Wanted(c, a, base, id) <==> Wanted(c, b, base, id) {
      forall m ensures Duplicate(c, a, base, id, m) <==> Duplicate(c, b, base, id, m) {}
    }
  }

  // ----- the key of a new movement tells how many new ones sort before it

  lemma {:induction false} KeysOfPrefix(c: Case, stored: seq<Stored>, base: string, rows: seq<Movement>, n: nat)
    requires n <= |rows|
    ensures AssignKeys(c, stored, base, rows)[..n] == AssignKeys(c, stored, base, rows[..n])
    decreases |rows|
  {
    if n == |rows| {
      assert rows[..n] == rows;
    } else {
      assert rows[..|rows| - 1][..n] == rows[..n];
      KeysOfPrefix(c, stored, base, rows[..|rows| - 1], n);
    }
  }

  lemma KeyAtPrefix(c: Case, stored: seq<Stored>, base: string, rows: seq<Movement>, i: nat)
    requires i < |rows|
    ensures AssignKeys(c, stored, base, rows)[i] == AssignKeys(c, stored, base, rows[..i + 1])[i]
  {
    KeysOfPrefix(c, stored, base, rows, i + 1);
    assert AssignKeys(c, stored, base, rows)[i] == AssignKeys(c, stored, base, rows)[..i + 1][i];
  }

  lemma FreshAt(c: Case, stored: seq<Stored>, base: string, rows: seq<Movement>, i: nat) returns (x: nat)
    requires UniqueStored(c, stored) && DistinctIds(rows) && i < |rows| && IsNew(c, stored, base, Identify(rows[i]))
    ensures IsNext(base, ReservedKeys(c, stored, base), |NewRows(c, stored, base, rows[..i])|,
                   AssignKeys(c, stored, base, rows)[i], x)
  {
    var front := rows[..i + 1];
    assert front[..|front| - 1] == rows[..i];
    KeyAtPrefix(c, stored, base, rows, i);
    FreshKeysInOrder(c, stored, base, rows[..i]);
    x := NextFresh(c, stored, base, front, |NewRows(c, stored, base, rows[..i])|);
  }

  lemma SameKeyIff(c: Case, stored: seq<Stored>, base: string, r: seq<Movement>, i: nat, s: seq<Movement>, j: nat)
    requires UniqueStored(c, stored) && DistinctIds(r) && DistinctIds(s) && i < |r| && j < |s|
    requires IsNew(c, stored, base, Identify(r[i])) && IsNew(c, stored, base, Identify(s[j]))
    ensures AssignKeys(c, stored, base, r)[i] == AssignKeys(c, stored, base, s)[j]
      <==> |NewRows(c, stored, base, r[..i])| == |NewRows(c, stored, base, s[..j])|
  {
    var x := FreshAt(c, stored, base, r, i);
    var y := FreshAt(c, stored, base, s, j);
    NextIsOne(base, ReservedKeys(c, stored, base), |NewRows(c, stored, base, r[..i])|, AssignKeys(c, stored, base, r)[i], x,
              |NewRows(c, stored, base, s[..j])|, AssignKeys(c, stored, base, s)[j], y);
  }

  lemma ScrapedOrderDoesNotMatter(c: Case, ms1: seq<Movement>, ms2: seq<Movement>, stored: seq<Stored>,
                                  base: string, id: Identity, key: string)
    requires Injective(c) && UniqueStored(c, stored) && !FreshFlips(c, ms1, stored, base) && multiset(ms1) == multiset(ms2)
    requires Gets(c, ms1, stored, base, id, key)
    ensures Gets(c, ms2, stored, base, id, key)
  {
    var r, s := Sorted(c, ms1, base), Sorted(c, ms2, base);
    SortedFacts(c, ms1, base);
    SortedFacts(c, ms2, base);
    SameWanted(c, ms1, ms2, base);
    var i :| 0 <= i < |r| && Identify(r[i]) == id && Keys(c, ms1, stored, base)[i] == key;
    assert id in IdSet(r);
    WantedGets(c, ms2, stored, base, id);
    var j :| 0 <= j < |s| && Identify(s[j]) == id;
    var key' := Keys(c, ms2, stored, base)[j];
    assert Gets(c, ms2, stored, base, id, key');
    if IsNew(c, stored, base, id) {
      NewRowAt(c, stored, base, r, i);
      NewRowAt(c, stored, base, s, j);
      SameNewIds(c, ms1, ms2, stored, base);
      NewRowsInOrder(c, stored, base, s);
      var news := NewRows(c, stored, base, s);
      IdsAt(NewRows(c, stored, base, r));
      IdsAt(news);
      var k, l := |NewRows(c, stored, base, r[..i])|, |NewRows(c, stored, base, s[..j])|;
      assert Identify(news[k]) == id == Identify(news[l]);
      assert k == l;
      SameKeyIff(c, stored, base, r, i, s, j);
    } else {
      GetsOrigin(c, ms1, stored, base, id, key);
      SettledIsGiven(c, ms2, stored, base, id, key, key');
    }
  }

  // ----- permuting stored rows never matters

  /** One assignment depends only on which rows are stored. */
  lemma SameStoredSameKey(c: Case, t1: seq<Stored>, t2: seq<Stored>, base: string, id: Identity, used: set<string>)
    requires forall e :: e in t1 <==> e in t2
    ensures AssignKey(c, t1, base, id, used) == AssignKey(c, t2, base, id, used)
  {
    HistoricalAre(c, t1, base, id);
    HistoricalAre(c, t2, base, id);
    forall k ensures k in HistoricalKeys(c, t1, base, id) <==> k in HistoricalKeys(c, t2, base, id) {
      assert StoredKey(c, t1, base, id, k) <==> StoredKey(c, t2, base, id, k);
    }
    BestOfSameKeys(base, HistoricalKeys(c, t1, base, id), HistoricalKeys(c, t2, base, id), used);
    ReservedAre(c, t1, base);
    ReservedAre(c, t2, base);
    assert ReservedKeys(c, t1, base) == ReservedKeys(c, t2, base) by {
      forall k ensures k in ReservedKeys(c, t1, base) <==> k in ReservedKeys(c, t2, base) {
        assert Reserves(c, t1, base, k) <==> Reserves(c, t2, base, k);
      }
    }
  }

  lemma {:induction false} SameStoredSameKeys(c: Case, t1: seq<Stored>, t2: seq<Stored>, base: string, rows: seq<Movement>)
    requires forall e :: e in t1 <==> e in t2
    ensures AssignKeys(c, t1, base, rows) == AssignKeys(c, t2, base, rows)
  {
    if rows != [] {
      var init := rows[..|rows| - 1];
      SameStoredSameKeys(c, t1, t2, base, init);
      SameStoredSameKey(c, t1, t2, base, Identify(rows[|rows| - 1]), Elements(AssignKeys(c, t1, base, init)));
    }
  }

  /** Permuting scraped rows or stored rows changes no key, unless two new movements of the base flip. */
  lemma OrderDoesNotMatter(c: Case, ms1: seq<Movement>, ms2: seq<Movement>, t1: seq<Stored>, t2: seq<Stored>,
                           base: string, id: Identity, key: string)
    requires Injective(c) && UniqueStored(c, t1) && !FreshFlips(c, ms1, t1, base)
    requires multiset(ms1) == multiset(ms2) && multiset(t1) == multiset(t2)
    ensures Gets(c, ms1, t1, base, id, key) <==> Gets(c, ms2, t2, base, id, key)
  {
    SameElements(t1, t2);
    SameStoredSameKeys(c, t1, t2, base, Sorted(c, ms2, base));
    assert Gets(c, ms2, t1, base, id, key) <==> Gets(c, ms2, t2, base, id, key);
    if Gets(c, ms1, t1, base, id, key) {
      ScrapedOrderDoesNotMatter(c, ms1, ms2, t1, base, id, key);
    }
    if Gets(c, ms2, t1, base, id, key) {
      SameFreshFlips(c, ms1, ms2, t1, base);
      ScrapedOrderDoesNotMatter(c, ms2, ms1, t1, base, id, key);
    }
  }

  lemma SameFreshFlips(c: Case, ms1: seq<Movement>, ms2: seq<Movement>, stored: seq<Stored>, base: string)
    requires multiset(ms1) == multiset(ms2)
    ensures FreshFlips(c, ms2, stored, base) ==> FreshFlips(c, ms1, stored, base)
  {
    SameElements(ms1, ms2);
    if m1, n, m2 :| Flip(c, ms2, base, m1, n, m2) && IsNew(c, stored, base, Identify(m1)) && IsNew(c, stored, base, Identify(n)) {
      assert Flip(c, ms1, base, m1, n, m2);
    }
  }

  // ----- with one it is not

  lemma Extract(ms: seq<Movement>, m: Movement) returns (rest: seq<Movement>)
    requires m in ms
    ensures multiset(ms) == multiset(rest) + multiset{m}
    ensures forall x | x in ms && x != m :: x in rest
  {
    var i :| 0 <= i < |ms| && ms[i] == m;
    rest := ms[..i] + ms[i + 1..];
    assert ms == ms[..i] + [m] + ms[i + 1..];
  }

  lemma ExtractThree(ms: seq<Movement>, a: Movement, b: Movement, d: Movement) returns (rest: seq<Movement>)
    requires a in ms && b in ms && d in ms && a != b && b != d && a != d
    ensures multiset([a, b] + ([d] + rest)) == multiset(ms) && multiset([b, d] + ([a] + rest)) == multiset(ms)
  {
    var most := Extract(ms, a);
    var more := Extract(most, b);
    rest := Extract(more, d);
  }

  /** The first two movements scraped, if their identities differ, decide how their identities sort. */
  lemma FirstTwoRows(c: Case, a: Movement, b: Movement, more: seq<Movement>, base: string) returns (ra: Movement, rb: Movement)
    requires InGroup(c, a, base) && InGroup(c, b, base) && Identify(a) != Identify(b)
    ensures var rows := GroupRows(c, [a, b] + more, base);
      && ra in rows && MovementSortKey(c, ra) == MovementSortKey(c, a) && Identify(ra) == Identify(a)
      && rb in rows && MovementSortKey(c, rb) == MovementSortKey(c, b) && Identify(rb) == Identify(b)
  {
    assert [a, b][..1] == [a] && [a][..0] == [];
    assert GroupRows(c, [a], base) == [a];
    assert GroupRows(c, [a, b], base) == [a, b];
    RowsKeepFields(c, [a, b], more, base, 0);
    RowsKeepFields(c, [a, b], more, base, 1);
    ra, rb := GroupRows(c, [a, b] + more, base)[0], GroupRows(c, [a, b] + more, base)[1];
  }

  lemma PositionsFollowKeys(c: Case, rows: seq<Movement>, ra: Movement, rb: Movement) returns (i: nat, j: nat)
    requires InOrder(c, rows) && ra in rows && rb in rows && Before(c, ra, rb) && !Before(c, rb, ra)
    ensures i < j < |rows| && rows[i] == ra && rows[j] == rb
  {
    i :| 0 <= i < |rows| && rows[i] == ra;
    j :| 0 <= j < |rows| && rows[j] == rb;
  }

  lemma FirstTwoInOrder(c: Case, a: Movement, b: Movement, more: seq<Movement>, base: string) returns (i: nat, j: nat)
    requires InGroup(c, a, base) && InGroup(c, b, base) && Identify(a) != Identify(b) && Injective(c) && Before(c, a, b)
    ensures var rows := Sorted(c, [a, b] + more, base);
      i < j < |rows| && Identify(rows[i]) == Identify(a) && Identify(rows[j]) == Identify(b)
  {
    var ra, rb := FirstTwoRows(c, a, b, more, base);
    var rows := Sorted(c, [a, b] + more, base);
    SortSorts(c, GroupRows(c, [a, b] + more, base));
    SameElements(rows, GroupRows(c, [a, b] + more, base));
    KeysDiffer(c, ra, rb);
    i, j := PositionsFollowKeys(c, rows, ra, rb);
  }

  lemma NewRowsGrow(c: Case, stored: seq<Stored>, base: string, rows: seq<Movement>, j: nat)
    requires j < |rows|
    ensures |NewRows(c, stored, base, rows[..j + 1])|
         == |NewRows(c, stored, base, rows[..j])| + if IsNew(c, stored, base, Identify(rows[j])) then 1 else 0
  {
    assert rows[..j + 1][..j] == rows[..j];
  }

  lemma {:induction false} NewRowsStay(c: Case, stored: seq<Stored>, base: string, rows: seq<Movement>, i: nat, j: nat)
    requires i <= j <= |rows|
    ensures |NewRows(c, stored, base, rows[..i])| <= |NewRows(c, stored, base, rows[..j])|
    decreases j - i
  {
    if i < j {
      NewRowsGrow(c, stored, base, rows, i);
      NewRowsStay(c, stored, base, rows, i + 1, j);
    }
  }

  /** Of two new movements the one that sorts later has more new ones before it. */
  lemma MoreBefore(c: Case, stored: seq<Stored>, base: string, rows: seq<Movement>, i: nat, j: nat)
    requires i < j <= |rows| && IsNew(c, stored, base, Identify(rows[i]))
    ensures |NewRows(c, stored, base, rows[..i])| < |NewRows(c, stored, base, rows[..j])|
  {
    NewRowsGrow(c, stored, base, rows, i);
    NewRowsStay(c, stored, base, rows, i + 1, j);
  }

  /** Where two new movements flip, the order in which their duplicates were scraped decides their keys. */
  lemma OrderMatters(c: Case, ms: seq<Movement>, stored: seq<Stored>, base: string) returns (ms1: seq<Movement>, ms2: seq<Movement>)
    requires Injective(c) && UniqueStored(c, stored) && FreshFlips(c, ms, stored, base)
    ensures multiset(ms1) == multiset(ms2) == multiset(ms)
    ensures exists id, key :: Gets(c, ms1, stored, base, id, key) && !Gets(c, ms2, stored, base, id, key)
  {
    var m1, n, m2 :| Flip(c, ms, base, m1, n, m2) && IsNew(c, stored, base, Identify(m1)) && IsNew(c, stored, base, Identify(n));
    KeysDiffer(c, m1, n);
    KeysDiffer(c, m2, n);
    var rest := ExtractThree(ms, m1, n, m2);
    ms1, ms2 := [m1, n] + ([m2] + rest), [n, m2] + ([m1] + rest);
    DifferentKeys(c, stored, base, m1, n, m2, rest);
  }

  lemma DifferentKeys(c: Case, stored: seq<Stored>, base: string, m1: Movement, n: Movement, m2: Movement, rest: seq<Movement>)
    requires Injective(c) && UniqueStored(c, stored) && Before(c, m1, n) && Before(c, n, m2)
    requires InGroup(c, m1, base) && InGroup(c, m2, base) && InGroup(c, n, base)
    requires Identify(m1) == Identify(m2) != Identify(n)
    requires IsNew(c, stored, base, Identify(m1)) && IsNew(c, stored, base, Identify(n))
    ensures exists id, key :: Gets(c, [m1, n] + ([m2] + rest), stored, base, id, key)
                              && !Gets(c, [n, m2] + ([m1] + rest), stored, base, id, key)
  {
    var ms1, ms2 := [m1, n] + ([m2] + rest), [n, m2] + ([m1] + rest);
    SortedFacts(c, ms1, base);
    SortedFacts(c, ms2, base);
    var r, s := Sorted(c, ms1, base), Sorted(c, ms2, base);
    var i, j := FirstTwoInOrder(c, m1, n, [m2] + rest, base);
    var j', i' := FirstTwoInOrder(c, n, m2, [m1] + rest, base);
    var ki, kj := Keys(c, ms1, stored, base)[i], Keys(c, ms1, stored, base)[j];
    assert Gets(c, ms1, stored, base, Identify(m1), ki) && Gets(c, ms1, stored, base, Identify(n), kj);
    var ki', kj' := Keys(c, ms2, stored, base)[i'], Keys(c, ms2, stored, base)[j'];
    assert Gets(c, ms2, stored, base, Identify(m1), ki') && Gets(c, ms2, stored, base, Identify(n), kj');
    MoreBefore(c, stored, base, r, i, j);
    MoreBefore(c, stored, base, s, j', i');
    SameKeyIff(c, stored, base, r, i, s, i');
    SameKeyIff(c, stored, base, r, j, s, j');
    assert ki != ki' || kj != kj';
    if Gets(c, ms2, stored, base, Identify(m1), ki) {
      GetsIsFunction(c, ms2, stored, base, Identify(m1), ki, ki');
    }
    if Gets(c, ms2, stored, base, Identify(n), kj) {
      GetsIsFunction(c, ms2, stored, base, Identify(n), kj, kj');
    }
  }

  /** Whether the order of scraped rows can decide a key of this base at all. */
  lemma OrderMattersIff(c: Case, ms: seq<Movement>, stored: seq<Stored>, base: string)
    requires Injective(c) && UniqueStored(c, stored)
    ensures FreshFlips(c, ms, stored, base)
      <==> exists ms1, ms2, id, key :: multiset(ms1) == multiset(ms2) == multiset(ms)
             && Gets(c, ms1, stored, base, id, key) && !Gets(c, ms2, stored, base, id, key)
  {
    if FreshFlips(c, ms, stored, base) {
      var ms1, ms2 := OrderMatters(c, ms, stored, base);
    } else {
      forall ms1, ms2, id, key | multiset(ms1) == multiset(ms2) == multiset(ms) && Gets(c, ms1, stored, base, id, key)
        ensures Gets(c, ms2, stored, base, id, key)
      {
        SameFreshFlips(c, ms, ms1, stored, base);
        ScrapedOrderDoesNotMatter(c, ms1, ms2, stored, base, id, key);
      }
    }
  }
}
