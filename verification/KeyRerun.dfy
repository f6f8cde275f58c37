/** One sync after another: the output of one is stored, and the next agrees with it. */
module KeyRerun {
  import opened Base
  import opened KeyText
  import opened MovementKeys
  import opened MovementTheorems
  import opened KeyStability
  import opened KeyAgreement
  import opened KeyOrdering

  // ----- no logical movement and no key twice in one output

  ghost predicate DistinctMovements(c: Case, rows: seq<(Movement, string)>) {
    forall i, j | 0 <= i < j < |rows| ::
      !(BaseOf(c, rows[i].0) == BaseOf(c, rows[j].0) && Identify(rows[i].0) == Identify(rows[j].0))
  }

  lemma {:induction false} BasesGiveDistinct(c: Case, ms: seq<Movement>, stored: seq<Stored>, bases: seq<string>)
    requires forall i, j | 0 <= i < j < |bases| :: bases[i] != bases[j]
    ensures DistinctMovements(c, PrepareBases(c, ms, stored, bases))
    ensures forall x | x in PrepareBases(c, ms, stored, bases) :: BaseOf(c, x.0) in bases
  {
    if bases != [] {
      var init, b := bases[..|bases| - 1], bases[|bases| - 1];
      BasesGiveDistinct(c, ms, stored, init);
      var rows, keys := Sorted(c, ms, b), Keys(c, ms, stored, b);
      PairAt(rows, keys);
      SortedFacts(c, ms, b);
      var front, back := PrepareBases(c, ms, stored, init), Pair(rows, keys);
      var all := front + back;
      forall i | 0 <= i < |back| ensures BaseOf(c, back[i].0) == b && Identify(back[i].0) == Identify(rows[i]) {
        assert rows[i] in rows;
      }
      forall i | 0 <= i < |front| ensures BaseOf(c, front[i].0) in init {
        assert front[i] in front;
      }
      forall i, j | 0 <= i < j < |all|
        ensures !(BaseOf(c, all[i].0) == BaseOf(c, all[j].0) && Identify(all[i].0) == Identify(all[j].0))
      {
        if j >= |front| && i < |front| {
          assert BaseOf(c, all[i].0) in init && BaseOf(c, all[j].0) == b;
        }
      }
    }
  }

  predicate DistinctKeys(rows: seq<(Movement, string)>) {
    forall i, j | 0 <= i < j < |rows| :: rows[i].1 != rows[j].1
  }

  /** Pairwise distinct logical movements always, and pairwise distinct keys unless the result repeats one. */
  lemma OutputIsDistinct(c: Case, ms: seq<Movement>, stored: seq<Stored>)
    requires UniqueStored(c, stored)
    ensures DistinctMovements(c, Prepared(c, ms, stored))
    ensures DistinctKeys(Prepared(c, ms, stored)) <==> !Repeats(c, ms, stored)
  {
    var p := Prepared(c, ms, stored);
    BaseOrderIs(c, ms);
    BasesGiveDistinct(c, ms, stored, BaseOrder(c, ms));
    RepeatsIff(c, ms, stored);
    if Repeats(c, ms, stored) {
      var b1, id1, b2, id2, key :| GivenTwice(c, ms, stored, b1, id1, b2, id2, key);
      GetsPrepared(c, ms, stored, b1, id1, key);
      GetsPrepared(c, ms, stored, b2, id2, key);
    } else {
      forall i, j | 0 <= i < j < |p| ensures p[i].1 != p[j].1 {
        assert p[i] in p && p[j] in p;
        PreparedGets(c, ms, stored, p[i].0, p[i].1);
        PreparedGets(c, ms, stored, p[j].0, p[j].1);
        assert p[i].1 == p[j].1 ==>
          GivenTwice(c, ms, stored, BaseOf(c, p[i].0), Identify(p[i].0), BaseOf(c, p[j].0), Identify(p[j].0), p[i].1);
      }
    }
  }

  // ----- stored and given rows together

  function Persist(prepared: seq<(Movement, string)>): seq<Stored> {
    if prepared == [] then [] else [Stored(prepared[0].1, Some(prepared[0].0))] + Persist(prepared[1..])
  }

  /** What is stored and what is given, side by side. */
  function Claimed(c: Case, ms: seq<Movement>, stored: seq<Stored>): seq<Stored> {
    stored + Persist(Prepared(c, ms, stored))
  }

  lemma {:induction false} PersistIs(prepared: seq<(Movement, string)>)
    ensures forall e :: e in Persist(prepared) <==> e.payload.Some? && (e.payload.value, e.key) in prepared
  {
    if prepared != [] {
      PersistIs(prepared[1..]);
      assert prepared == [prepared[0]] + prepared[1..];
    }
  }

  /** The historical bases of a row depend only on its base and identity. */
  lemma SameBases(c: Case, m: Movement, n: Movement)
    requires BaseOf(c, m) == BaseOf(c, n) && Identify(m) == Identify(n)
    ensures BasesOf(c, m) == BasesOf(c, n)
  {
    assert |Identify(m)| == |Identify(n)|;
    if m.rawFolio.Some? {
      var x, y := m.rawCuaderno + ":" + m.rawFolio.value, n.rawCuaderno + ":" + n.rawFolio.value;
      assert BaseOf(c, m) == (c.number + ":") + x && BaseOf(c, n) == (c.number + ":") + y;
      assert BaseOf(c, m)[|c.number| + 1..] == x && BaseOf(c, n)[|c.number| + 1..] == y;
      assert forall i | 0 <= i < |c.aliases| :: FolioKey(c.aliases[i], m) == FolioKey(c.aliases[i], n);
    }
  }

  lemma OwnFamilyIsRecognised(c: Case, m: Movement, key: string)
    requires IsKeyForBase(key, BaseOf(c, m))
    ensures StoredFor(c, Stored(key, Some(m)), BaseOf(c, m), Identify(m))
  {
    assert BaseOf(c, m) != "";
    FirstMatchIs(BasesOf(c, m), key);
  }

  lemma StoredKeyIsRecognised(c: Case, stored: seq<Stored>, m: Movement, key: string)
    requires StoredKey(c, stored, BaseOf(c, m), Identify(m), key)
    ensures StoredFor(c, Stored(key, Some(m)), BaseOf(c, m), Identify(m))
  {
    var e :| e in stored && StoredFor(c, e, BaseOf(c, m), Identify(m)) && e.key == key;
    SameBases(c, m, e.payload.value);
  }

  /** A row stored with the key it was given is recognised for what it is. */
  lemma OutputIsRecognised(c: Case, ms: seq<Movement>, stored: seq<Stored>, m: Movement, key: string)
    requires UniqueStored(c, stored) && Gets(c, ms, stored, BaseOf(c, m), Identify(m), key)
    ensures StoredFor(c, Stored(key, Some(m)), BaseOf(c, m), Identify(m))
  {
    GetsOrigin(c, ms, stored, BaseOf(c, m), Identify(m), key);
    if StoredKey(c, stored, BaseOf(c, m), Identify(m), key) {
      StoredKeyIsRecognised(c, stored, m, key);
    } else {
      OwnFamilyIsRecognised(c, m, key);
    }
  }

  lemma ClaimedAre(c: Case, ms: seq<Movement>, stored: seq<Stored>, b: string, id: Identity, key: string)
    requires UniqueStored(c, stored)
    ensures StoredKey(c, Claimed(c, ms, stored), b, id, key)
      <==> StoredKey(c, stored, b, id, key) || Gets(c, ms, stored, b, id, key)
  {
    var all := Claimed(c, ms, stored);
    PersistIs(Prepared(c, ms, stored));
    if StoredKey(c, stored, b, id, key) {
      var e :| e in stored && StoredFor(c, e, b, id) && e.key == key;
      assert e in all;
    }
    if Gets(c, ms, stored, b, id, key) {
      GetsPrepared(c, ms, stored, b, id, key);
      var m :| (m, key) in Prepared(c, ms, stored) && BaseOf(c, m) == b && Identify(m) == id;
      OutputIsRecognised(c, ms, stored, m, key);
      assert Stored(key, Some(m)) in all;
    }
    if StoredKey(c, all, b, id, key) {
      var e :| e in all && StoredFor(c, e, b, id) && e.key == key;
      if e !in stored {
        PreparedGets(c, ms, stored, e.payload.value, key);
      }
    }
  }

  /** No key has two owners among stored and given rows, exactly when there is no clash. */
  lemma OneOwnerIff(c: Case, ms: seq<Movement>, stored: seq<Stored>)
    requires UniqueStored(c, stored)
    ensures UniqueStored(c, Claimed(c, ms, stored)) <==> !Clashes(c, ms, stored)
  {
    var all := Claimed(c, ms, stored);
    if !Clashes(c, ms, stored) {
      forall e1, e2 | e1 in all && e2 in all && e1.key == e2.key && Recognise(c, e1).Some? && Recognise(c, e2).Some?
        ensures Recognise(c, e1).value.base == Recognise(c, e2).value.base
                && Recognise(c, e1).value.id == Recognise(c, e2).value.id
      {
        OneOwner(c, ms, stored, e1, e2);
      }
    } else if b1, b2, n :| BasesMeet(c, ms, stored, b1, b2, n) {
      ClashingBasesClash(c, ms, stored, b1, b2, n);
      var id1, id2 :| GivenTwice(c, ms, stored, b1, id1, b2, id2, b1);
      TwoOwners(c, ms, stored, b1, id1, b2, id2, b1);
    } else {
      var b, n, e :| Steals(c, ms, stored, b, n, e);
      var r := Recognise(c, e).value;
      var id := TakenIsGiven(c, ms, stored, b, n);
      ThiefIsOfAnotherBase(c, ms, stored, b, n, e);
      assert StoredKey(c, stored, r.base, r.id, e.key);
      TwoOwners(c, ms, stored, b, id, r.base, r.id, e.key);
    }
  }

  lemma TwoOwners(c: Case, ms: seq<Movement>, stored: seq<Stored>, b1: string, id1: Identity, b2: string, id2: Identity, key: string)
    requires UniqueStored(c, stored) && b1 != b2 && Gets(c, ms, stored, b1, id1, key)
    requires Gets(c, ms, stored, b2, id2, key) || StoredKey(c, stored, b2, id2, key)
    ensures !UniqueStored(c, Claimed(c, ms, stored))
  {
    ClaimedAre(c, ms, stored, b1, id1, key);
    ClaimedAre(c, ms, stored, b2, id2, key);
    var all := Claimed(c, ms, stored);
    var e1 :| e1 in all && StoredFor(c, e1, b1, id1) && e1.key == key;
    var e2 :| e2 in all && StoredFor(c, e2, b2, id2) && e2.key == key;
  }

  lemma OneOwner(c: Case, ms: seq<Movement>, stored: seq<Stored>, e1: Stored, e2: Stored)
    requires UniqueStored(c, stored) && !Clashes(c, ms, stored)
    requires e1 in Claimed(c, ms, stored) && e2 in Claimed(c, ms, stored) && e1.key == e2.key
    requires Recognise(c, e1).Some? && Recognise(c, e2).Some?
    ensures Recognise(c, e1).value.base == Recognise(c, e2).value.base
            && Recognise(c, e1).value.id == Recognise(c, e2).value.id
  {
    var key := e1.key;
    var r1, r2 := Recognise(c, e1).value, Recognise(c, e2).value;
    ClaimedAre(c, ms, stored, r1.base, r1.id, key);
    ClaimedAre(c, ms, stored, r2.base, r2.id, key);
    assert StoredKey(c, Claimed(c, ms, stored), r1.base, r1.id, key);
    assert StoredKey(c, Claimed(c, ms, stored), r2.base, r2.id, key);
    if StoredKey(c, stored, r1.base, r1.id, key) && StoredKey(c, stored, r2.base, r2.id, key) {
      var x :| x in stored && StoredFor(c, x, r1.base, r1.id) && x.key == key;
      var y :| y in stored && StoredFor(c, y, r2.base, r2.id) && y.key == key;
    } else if !(r1.base == r2.base && r1.id == r2.id) {
      if !StoredKey(c, stored, r1.base, r1.id, key) && !StoredKey(c, stored, r2.base, r2.id, key) {
        GivenTwiceRepeats(c, ms, stored, r1.base, r1.id, r2.base, r2.id, key);
      } else if StoredKey(c, stored, r1.base, r1.id, key) {
        StoredAndOther(c, ms, stored, r1.base, r1.id, r2.base, r2.id, key);
      } else {
        StoredAndOther(c, ms, stored, r2.base, r2.id, r1.base, r1.id, key);
      }
    }
  }

  // ----- what is stored afterwards

  /** A key is unique in the table; rows without one are not the worker's. */
  ghost predicate UniqueKeys(stored: seq<Stored>) {
    forall e1, e2 | e1 in stored && e2 in stored && e1.key == e2.key && e1.key != "" :: e1 == e2
  }

  function KeysOf(rows: seq<(Movement, string)>): set<string> {
    set x | x in rows :: x.1
  }

  function Without(stored: seq<Stored>, keys: set<string>): seq<Stored> {
    if stored == [] then []
    else (if stored[0].key in keys then [] else [stored[0]]) + Without(stored[1..], keys)
  }

  lemma {:induction false} WithoutIs(stored: seq<Stored>, keys: set<string>)
    ensures forall e :: e in Without(stored, keys) <==> e in stored && e.key !in keys
  {
    if stored != [] {
      WithoutIs(stored[1..], keys);
      assert stored == [stored[0]] + stored[1..];
    }
  }

  /** The upsert on the key: rows with a given key are overwritten. One that names a key twice is refused as a whole. */
  function AfterSync(c: Case, ms: seq<Movement>, stored: seq<Stored>): seq<Stored> {
    var p := Prepared(c, ms, stored);
    if DistinctKeys(p) then Without(stored, KeysOf(p)) + Persist(p) else stored
  }

  lemma NothingIsNotNew(c: Case, base: string, id: Identity)
    ensures IsNew(c, [], base, id)
  {
  }

  lemma NewRowsSnoc(c: Case, stored: seq<Stored>, base: string, rows: seq<Movement>)
    requires rows != [] && IsNew(c, stored, base, Identify(rows[|rows| - 1]))
    ensures NewRows(c, stored, base, rows) == NewRows(c, stored, base, rows[..|rows| - 1]) + [rows[|rows| - 1]]
  {
  }

  lemma {:induction false} AllAreNew(c: Case, base: string, rows: seq<Movement>)
    ensures NewRows(c, [], base, rows) == rows
  {
    if rows != [] {
      NothingIsNotNew(c, base, Identify(rows[|rows| - 1]));
      NewRowsSnoc(c, [], base, rows);
      AllAreNew(c, base, rows[..|rows| - 1]);
    }
  }

  /** Where nothing is stored yet, two movements of one base reach its second key. */
  lemma TwoReachTheSecond(c: Case, ms: seq<Movement>, base: string, id1: Identity, id2: Identity)
    requires Wanted(c, ms, base, id1) && Wanted(c, ms, base, id2)
    ensures Taken(c, ms, [], base, 1) && (id1 != id2 ==> Taken(c, ms, [], base, 2))
  {
    var rows := Sorted(c, ms, base);
    SortedFacts(c, ms, base);
    AllAreNew(c, base, rows);
    DistinctCard(rows);
    assert {id1, id2} <= IdSet(rows);
    SubsetCard({id1, id2}, IdSet(rows));
    assert ReservedKeys(c, [], base) == {};
  }

  /** A refused sync exists: two new movements of one folio, beside one whose folio is that one and `#2`. */
  lemma SuffixedFolioIsRefused(c: Case, ms: seq<Movement>, base: string, id1: Identity, id2: Identity, id: Identity)
    requires Wanted(c, ms, base, id1) && Wanted(c, ms, base, id2) && id1 != id2 && Wanted(c, ms, base + "#2", id)
    ensures Repeats(c, ms, []) && AfterSync(c, ms, []) == []
  {
    var b1 := base + "#2";
    TwoReachTheSecond(c, ms, base, id1, id2);
    TwoReachTheSecond(c, ms, b1, id, id);
    assert Decimal(2) == "2" && Candidate(base, 2) == b1;
    assert BasesMeet(c, ms, [], b1, base, 2);
    OutputIsDistinct(c, ms, []);
  }

  lemma UniqueKeysAreEnough(c: Case, stored: seq<Stored>)
    requires UniqueKeys(stored)
    ensures UniqueStored(c, stored)
  {
  }

  lemma SyncKeepsUnique(c: Case, ms: seq<Movement>, stored: seq<Stored>)
    requires UniqueKeys(stored)
    ensures UniqueKeys(AfterSync(c, ms, stored))
  {
    var p := Prepared(c, ms, stored);
    if DistinctKeys(p) {
      WithoutIs(stored, KeysOf(p));
      PersistIs(p);
      var after := AfterSync(c, ms, stored);
      forall e1, e2 | e1 in after && e2 in after && e1.key == e2.key && e1.key != "" ensures e1 == e2 {
        if e1 in Persist(p) { assert (e1.payload.value, e1.key) in p; }
        if e2 in Persist(p) { assert (e2.payload.value, e2.key) in p; }
      }
    }
  }

  /** New movements of some other base take this key. */
  ghost predicate Stolen(c: Case, ms: seq<Movement>, stored: seq<Stored>, key: string) {
    exists b, n, e :: Steals(c, ms, stored, b, n, e) && e.key == key
  }

  /** After a sync that went through, a movement has the key it was given, and those of its stored keys that were not
      stolen from it. */
  lemma StoredAfterSync(c: Case, ms: seq<Movement>, stored: seq<Stored>, b: string, id: Identity, key: string)
    requires UniqueKeys(stored) && !Repeats(c, ms, stored)
    ensures StoredKey(c, AfterSync(c, ms, stored), b, id, key)
      <==> Gets(c, ms, stored, b, id, key) || (StoredKey(c, stored, b, id, key) && !Stolen(c, ms, stored, key))
  {
    UniqueKeysAreEnough(c, stored);
    OutputIsDistinct(c, ms, stored);
    var p, after := Prepared(c, ms, stored), AfterSync(c, ms, stored);
    WithoutIs(stored, KeysOf(p));
    PersistIs(p);
    if Gets(c, ms, stored, b, id, key) {
      GetsPrepared(c, ms, stored, b, id, key);
      var m :| (m, key) in p && BaseOf(c, m) == b && Identify(m) == id;
      OutputIsRecognised(c, ms, stored, m, key);
      assert Stored(key, Some(m)) in after;
    } else if StoredKey(c, stored, b, id, key) {
      var e :| e in stored && StoredFor(c, e, b, id) && e.key == key;
      GivenAwayIffStolen(c, ms, stored, b, id, e);
      assert key !in KeysOf(p) ==> e in after;
    }
    if StoredKey(c, after, b, id, key) {
      var e :| e in after && StoredFor(c, e, b, id) && e.key == key;
      if e in Persist(p) {
        PreparedGets(c, ms, stored, e.payload.value, key);
      } else {
        GivenAwayIffStolen(c, ms, stored, b, id, e);
      }
    }
  }

  lemma GivenAwayIffStolen(c: Case, ms: seq<Movement>, stored: seq<Stored>, b: string, id: Identity, e: Stored)
    requires UniqueStored(c, stored) && e in stored && StoredFor(c, e, b, id) && !Gets(c, ms, stored, b, id, e.key)
    ensures e.key in KeysOf(Prepared(c, ms, stored)) <==> Stolen(c, ms, stored, e.key)
  {
    var p := Prepared(c, ms, stored);
    if e.key in KeysOf(p) {
      var x :| x in p && x.1 == e.key;
      PreparedGets(c, ms, stored, x.0, x.1);
      StoredAndOther(c, ms, stored, b, id, BaseOf(c, x.0), Identify(x.0), e.key);
    }
    if Stolen(c, ms, stored, e.key) {
      var b', n, x :| Steals(c, ms, stored, b', n, x) && x.key == e.key;
      var id' := TakenIsGiven(c, ms, stored, b', n);
      GetsPrepared(c, ms, stored, b', id', e.key);
      var m :| (m, e.key) in p && BaseOf(c, m) == b' && Identify(m) == id';
    }
  }

  /** A sync takes no movement any of its stored keys, exactly when it is refused or steals none. */
  lemma NothingIsLostIff(c: Case, ms: seq<Movement>, stored: seq<Stored>)
    requires UniqueKeys(stored)
    ensures (forall b, id, key :: StoredKey(c, stored, b, id, key) ==> StoredKey(c, AfterSync(c, ms, stored), b, id, key))
      <==> Repeats(c, ms, stored) || forall b, n, e :: !Steals(c, ms, stored, b, n, e)
  {
    UniqueKeysAreEnough(c, stored);
    OutputIsDistinct(c, ms, stored);
    if !Repeats(c, ms, stored) {
      forall b, id, key | StoredKey(c, stored, b, id, key)
        ensures StoredKey(c, AfterSync(c, ms, stored), b, id, key) || Stolen(c, ms, stored, key)
      {
        StoredAfterSync(c, ms, stored, b, id, key);
      }
      if b, n, e :| Steals(c, ms, stored, b, n, e) {
        TheftLoses(c, ms, stored, b, n, e);
      }
    }
  }

  lemma TheftLoses(c: Case, ms: seq<Movement>, stored: seq<Stored>, b: string, n: nat, e: Stored)
    requires UniqueKeys(stored) && !Repeats(c, ms, stored) && Steals(c, ms, stored, b, n, e)
    ensures var r := Recognise(c, e).value;
      StoredKey(c, stored, r.base, r.id, e.key) && !StoredKey(c, AfterSync(c, ms, stored), r.base, r.id, e.key)
  {
    UniqueKeysAreEnough(c, stored);
    var r := Recognise(c, e).value;
    ThiefIsOfAnotherBase(c, ms, stored, b, n, e);
    var id := TakenIsGiven(c, ms, stored, b, n);
    StoredAfterSync(c, ms, stored, r.base, r.id, e.key);
    assert StoredKey(c, stored, r.base, r.id, e.key);
    if Gets(c, ms, stored, r.base, r.id, e.key) {
      KeysAreDistinct(c, ms, stored, r.base, r.id, b, id, e.key);
    }
  }

  // ----- one sync after another

  function AfterSyncs(c: Case, rounds: seq<seq<Movement>>, stored: seq<Stored>): seq<Stored> {
    if rounds == [] then stored else AfterSyncs(c, rounds[1..], AfterSync(c, rounds[0], stored))
  }

  /** In no round that goes through this key is stolen. */
  ghost predicate NeverStolen(c: Case, rounds: seq<seq<Movement>>, stored: seq<Stored>, key: string) {
    rounds == []
    || ((Repeats(c, rounds[0], stored) || !Stolen(c, rounds[0], stored, key))
        && NeverStolen(c, rounds[1..], AfterSync(c, rounds[0], stored), key))
  }

  lemma GivenIsSettled(c: Case, ms: seq<Movement>, stored: seq<Stored>, b: string, id: Identity, key: string)
    requires UniqueKeys(stored) && !Repeats(c, ms, stored) && Gets(c, ms, stored, b, id, key)
    ensures Settled(c, AfterSync(c, ms, stored), b, id, key)
  {
    UniqueKeysAreEnough(c, stored);
    GetsOrigin(c, ms, stored, b, id, key);
    StoredAfterSync(c, ms, stored, b, id, key);
    forall k | StoredKey(c, AfterSync(c, ms, stored), b, id, k) ensures Leq(KeyOrder(b, key), KeyOrder(b, k)) {
      StoredAfterSync(c, ms, stored, b, id, k);
      if !StoredKey(c, stored, b, id, k) {
        GetsIsFunction(c, ms, stored, b, id, key, k);
        LeqTotal(KeyOrder(b, k), KeyOrder(b, k));
      }
    }
  }

  lemma StaysSettled(c: Case, ms: seq<Movement>, stored: seq<Stored>, b: string, id: Identity, key: string)
    requires UniqueKeys(stored) && Settled(c, stored, b, id, key)
    requires Repeats(c, ms, stored) || !Stolen(c, ms, stored, key)
    ensures Settled(c, AfterSync(c, ms, stored), b, id, key)
  {
    UniqueKeysAreEnough(c, stored);
    OutputIsDistinct(c, ms, stored);
    if !Repeats(c, ms, stored) {
      StoredAfterSync(c, ms, stored, b, id, key);
      forall k | StoredKey(c, AfterSync(c, ms, stored), b, id, k) ensures Leq(KeyOrder(b, key), KeyOrder(b, k)) {
        StoredAfterSync(c, ms, stored, b, id, k);
        if Gets(c, ms, stored, b, id, k) {
          SettledIsGiven(c, ms, stored, b, id, key, k);
        }
      }
    }
  }

  /** Stored keys stay unique over any number of syncs. */
  lemma {:induction false} SyncsKeepUnique(c: Case, rounds: seq<seq<Movement>>, stored: seq<Stored>)
    requires UniqueKeys(stored)
    ensures UniqueKeys(AfterSyncs(c, rounds, stored))
    decreases |rounds|
  {
    if rounds != [] {
      SyncKeepsUnique(c, rounds[0], stored);
      SyncsKeepUnique(c, rounds[1..], AfterSync(c, rounds[0], stored));
    }
  }

  lemma {:induction false} SettledIsGivenLater(c: Case, rounds: seq<seq<Movement>>, stored: seq<Stored>, last: seq<Movement>,
                                               b: string, id: Identity, key: string, key': string)
    requires UniqueKeys(stored) && NeverStolen(c, rounds, stored, key) && Settled(c, stored, b, id, key)
    requires Gets(c, last, AfterSyncs(c, rounds, stored), b, id, key')
    ensures key' == key
    decreases |rounds|
  {
    if rounds == [] {
      UniqueKeysAreEnough(c, stored);
      SettledIsGiven(c, last, stored, b, id, key, key');
    } else {
      SyncKeepsUnique(c, rounds[0], stored);
      StaysSettled(c, rounds[0], stored, b, id, key);
      SettledIsGivenLater(c, rounds[1..], AfterSync(c, rounds[0], stored), last, b, id, key, key');
    }
  }

  /** Agreement between syncs: a logical movement that was given a key by a sync that went through is given the same key
      later, whatever was stored before and whatever else is scraped then, now and in between, unless in between new
      movements of another base take that very key. */
  lemma SyncsAgree(c: Case, now: seq<Movement>, between: seq<seq<Movement>>, later: seq<Movement>, stored: seq<Stored>,
                   b: string, id: Identity, key: string, key': string)
    requires UniqueKeys(stored) && !Repeats(c, now, stored) && Gets(c, now, stored, b, id, key)
    requires NeverStolen(c, between, AfterSync(c, now, stored), key)
    requires Gets(c, later, AfterSyncs(c, between, AfterSync(c, now, stored)), b, id, key')
    ensures key' == key
  {
    SyncKeepsUnique(c, now, stored);
    GivenIsSettled(c, now, stored, b, id, key);
    SettledIsGivenLater(c, between, AfterSync(c, now, stored), later, b, id, key, key');
  }

  /** In particular the very next one agrees, always. */
  lemma NextSyncAgrees(c: Case, ms: seq<Movement>, stored: seq<Stored>, next: seq<Movement>,
                       b: string, id: Identity, key: string, key': string)
    requires UniqueKeys(stored) && !Repeats(c, ms, stored)
    requires Gets(c, ms, stored, b, id, key)
    requires Gets(c, next, AfterSync(c, ms, stored), b, id, key')
    ensures key' == key
  {
    SyncsAgree(c, ms, [], next, stored, b, id, key, key');
  }

  // ----- exactly which key is given later

  /** `key` is the unreserved suffix candidate at the movement's place among the new ones of its base. */
  ghost predicate AtItsPlace(c: Case, ms: seq<Movement>, stored: seq<Stored>, b: string, id: Identity, key: string) {
    exists i: nat, r: nat ::
      && i < |Sorted(c, ms, b)| && Identify(Sorted(c, ms, b)[i]) == id
      && IsNext(b, ReservedKeys(c, stored, b), |NewRows(c, stored, b, Sorted(c, ms, b)[..i])|, key, r)
  }

  lemma GivenIff(c: Case, ms: seq<Movement>, stored: seq<Stored>, b: string, id: Identity, key: string)
    requires UniqueStored(c, stored)
    ensures Gets(c, ms, stored, b, id, key)
      <==> Wanted(c, ms, b, id)
           && (Settled(c, stored, b, id, key) || (IsNew(c, stored, b, id) && AtItsPlace(c, ms, stored, b, id, key)))
  {
    var rows := Sorted(c, ms, b);
    SortedFacts(c, ms, b);
    if Gets(c, ms, stored, b, id, key) {
      GivenIsLeast(c, ms, stored, b, id, key);
      if IsNew(c, stored, b, id) {
        var i: nat :| i < |rows| && Identify(rows[i]) == id && Keys(c, ms, stored, b)[i] == key;
        var r := FreshAt(c, stored, b, rows, i);
      }
    } else if Wanted(c, ms, b, id) {
      WantedGets(c, ms, stored, b, id);
      var key' :| Gets(c, ms, stored, b, id, key');
      if Settled(c, stored, b, id, key) {
        SettledIsGiven(c, ms, stored, b, id, key, key');
      } else if IsNew(c, stored, b, id) && AtItsPlace(c, ms, stored, b, id, key) {
        PlaceIsGiven(c, ms, stored, b, id, key);
      }
    }
  }

  lemma PlaceIsGiven(c: Case, ms: seq<Movement>, stored: seq<Stored>, b: string, id: Identity, key: string)
    requires UniqueStored(c, stored) && IsNew(c, stored, b, id) && AtItsPlace(c, ms, stored, b, id, key)
    ensures Gets(c, ms, stored, b, id, key)
  {
    var rows, reserved := Sorted(c, ms, b), ReservedKeys(c, stored, b);
    SortedFacts(c, ms, b);
    var i: nat, r: nat :| i < |rows| && Identify(rows[i]) == id
      && IsNext(b, reserved, |NewRows(c, stored, b, rows[..i])|, key, r);
    var x := FreshAt(c, stored, b, rows, i);
    NextIsOne(b, reserved, |NewRows(c, stored, b, rows[..i])|, Keys(c, ms, stored, b)[i], x,
              |NewRows(c, stored, b, rows[..i])|, key, r);
  }

  /** After any syncs, thefts and refusals among them: a movement is given `key` again exactly if that is the least of the
      keys it has then, or it has none and `key` is the unreserved one at its place. */
  lemma SyncsAgreeIff(c: Case, rounds: seq<seq<Movement>>, later: seq<Movement>, stored: seq<Stored>,
                      b: string, id: Identity, key: string, key': string)
    requires UniqueKeys(stored) && Gets(c, later, AfterSyncs(c, rounds, stored), b, id, key')
    ensures var then_ := AfterSyncs(c, rounds, stored);
      key' == key <==> Settled(c, then_, b, id, key) || (IsNew(c, then_, b, id) && AtItsPlace(c, later, then_, b, id, key))
  {
    var then_ := AfterSyncs(c, rounds, stored);
    SyncsKeepUnique(c, rounds, stored);
    UniqueKeysAreEnough(c, then_);
    GivenIff(c, later, then_, b, id, key);
    GivenIff(c, later, then_, b, id, key');
    if Gets(c, later, then_, b, id, key) {
      GetsIsFunction(c, later, then_, b, id, key, key');
    }
  }

  // ----- a theft that changes the later key, and one that does not

  lemma NoBases(c: Case, ms: seq<Movement>, stored: seq<Stored>)
    ensures PrepareBases(c, ms, stored, []) == []
  {
  }

  lemma OnlyOneBase(c: Case, ms: seq<Movement>, stored: seq<Stored>, base: string)
    requires BaseOrder(c, ms) == [base]
    ensures Prepared(c, ms, stored) == Pair(Sorted(c, ms, base), Keys(c, ms, stored, base))
  {
    var bases := BaseOrder(c, ms);
    OneMoreBase(c, ms, stored, bases, 0);
    NoBases(c, ms, stored);
    assert bases[..0] == [] && bases[..1] == bases && bases[0] == base;
    var only := Pair(Sorted(c, ms, base), Keys(c, ms, stored, base));
    assert [] + only == only;
  }

  lemma OneSorted(c: Case, m: Movement, base: string)
    requires InGroup(c, m, base)
    ensures GroupRows(c, [m], base) == [m] && SortRows(c, [m]) == [m] && BaseOrder(c, [m]) == [base]
  {
    assert [m][..0] == [] && [m][1..] == [];
  }

  lemma TwoSorted(c: Case, m: Movement, n: Movement, base: string)
    requires InGroup(c, m, base) && InGroup(c, n, base) && Identify(m) != Identify(n) && Before(c, m, n)
    ensures Sorted(c, [m, n], base) == [m, n] && BaseOrder(c, [m, n]) == [base]
  {
    OneSorted(c, m, base);
    OneSorted(c, n, base);
    assert [m, n][..1] == [m] && [m, n][1..] == [n];
    assert GroupRows(c, [m, n], base) == [m, n];
  }

  lemma OnePrepared(c: Case, m: Movement, stored: seq<Stored>, base: string)
    requires InGroup(c, m, base)
    ensures Prepared(c, [m], stored) == Pair([m], AssignKeys(c, stored, base, [m]))
  {
    OneSorted(c, m, base);
    OnlyOneBase(c, [m], stored, base);
  }

  lemma TwoPrepared(c: Case, m: Movement, n: Movement, stored: seq<Stored>, base: string)
    requires InGroup(c, m, base) && InGroup(c, n, base) && Identify(m) != Identify(n) && Before(c, m, n)
    ensures Prepared(c, [m, n], stored) == Pair([m, n], AssignKeys(c, stored, base, [m, n]))
  {
    TwoSorted(c, m, n, base);
    OnlyOneBase(c, [m, n], stored, base);
  }

  /** No recognised row has anything to do with the base. */
  predicate Untouched(c: Case, stored: seq<Stored>, base: string) {
    forall e | e in stored && Recognise(c, e).Some? :: Recognise(c, e).value.base != base && Recognise(c, e).value.matching != base
  }

  lemma UntouchedIsFree(c: Case, stored: seq<Stored>, base: string, id: Identity)
    requires Untouched(c, stored, base)
    ensures HistoricalKeys(c, stored, base, id) == [] && ReservedKeys(c, stored, base) == {}
  {
    HistoricalAre(c, stored, base, id);
    ReservedAre(c, stored, base);
    EmptyOrNot(HistoricalKeys(c, stored, base, id));
  }

  lemma FirstKey(c: Case, stored: seq<Stored>, base: string, m: Movement)
    requires Untouched(c, stored, base)
    ensures AssignKeys(c, stored, base, [m]) == [base]
  {
    UntouchedIsFree(c, stored, base, Identify(m));
    assert [m][..0] == [] && AssignKeys(c, stored, base, []) == [] && Elements([]) == {};
    assert Candidate(base, 1) == base && FirstFree(base, {}, 1) == 1;
  }

  /** Its movements are given the first keys. */
  lemma FirstKeys(c: Case, stored: seq<Stored>, base: string, m: Movement, n: Movement)
    requires Untouched(c, stored, base)
    ensures AssignKeys(c, stored, base, [m, n]) == [base, base + "#2"]
  {
    FirstKey(c, stored, base, m);
    UntouchedIsFree(c, stored, base, Identify(n));
    assert [m, n][..1] == [m];
    ElementsSnoc([], base);
    assert [] + [base] == [base] && Elements([base]) == {base};
    assert Decimal(2) == "2" && Candidate(base, 1) == base && Candidate(base, 2) == base + "#2";
    assert FirstFree(base, {base}, 1) == 2;
  }

  lemma EmptyOrNot(keys: seq<string>)
    ensures keys == [] || exists k :: k in keys
  {
    if keys != [] {
      assert keys[0] in keys;
    }
  }

  lemma FirstSync(c: Case, owner: Movement, b: string)
    requires c.aliases == [] && InGroup(c, owner, b)
    ensures Prepared(c, [owner], []) == [(owner, b)] && AfterSync(c, [owner], []) == [Stored(b, Some(owner))]
  {
    FirstSyncPrepares(c, owner, b);
    PersistTwo(owner, b, owner, b);
    assert Without([], KeysOf([(owner, b)])) == [];
  }

  lemma FirstSyncPrepares(c: Case, owner: Movement, b: string)
    requires c.aliases == [] && InGroup(c, owner, b)
    ensures Prepared(c, [owner], []) == [(owner, b)]
  {
    OnePrepared(c, owner, [], b);
    FirstKey(c, [], b, owner);
    PairAt([owner], [b]);
  }

  lemma OwnerIsElsewhere(c: Case, owner: Movement, base: string)
    requires c.aliases == [] && InGroup(c, owner, base + "#2")
    ensures Untouched(c, [Stored(base + "#2", Some(owner))], base)
  {
    assert BasesOf(c, owner) == [base + "#2"];
    FirstMatchIs(BasesOf(c, owner), base + "#2");
    assert base + "#2" != base;
  }

  lemma TheftSync(c: Case, m1: Movement, m2: Movement, owner: Movement, base: string)
    requires c.aliases == [] && InGroup(c, m1, base) && InGroup(c, m2, base) && InGroup(c, owner, base + "#2")
    requires Identify(m1) != Identify(m2) && Before(c, m1, m2)
    ensures AfterSync(c, [m1, m2], [Stored(base + "#2", Some(owner))]) == [Stored(base, Some(m1)), Stored(base + "#2", Some(m2))]
  {
    var e := Stored(base + "#2", Some(owner));
    OwnerIsElsewhere(c, owner, base);
    TwoPrepared(c, m1, m2, [e], base);
    FirstKeys(c, [e], base, m1, m2);
    PairAt([m1, m2], [base, e.key]);
    assert Prepared(c, [m1, m2], [e]) == [(m1, base), (m2, e.key)];
    TwoOverwrite(e, m1, base, m2);
  }

  lemma AfterTheft(c: Case, m1: Movement, m2: Movement, owner: Movement, base: string)
    requires c.aliases == [] && InGroup(c, m1, base) && InGroup(c, m2, base) && InGroup(c, owner, base + "#2")
    requires Identify(m1) != Identify(m2) && Before(c, m1, m2)
    ensures AfterSyncs(c, [[owner], [m1, m2]], []) == [Stored(base, Some(m1)), Stored(base + "#2", Some(m2))]
  {
    FirstSync(c, owner, base + "#2");
    TheftSync(c, m1, m2, owner, base);
    var rounds := [[owner], [m1, m2]];
    assert rounds[1..] == [[m1, m2]] && [[m1, m2]][1..] == [];
    var t1 := [Stored(base + "#2", Some(owner))];
    assert AfterSyncs(c, rounds, []) == AfterSyncs(c, [[m1, m2]], t1);
    assert AfterSyncs(c, [[m1, m2]], t1) == AfterSyncs(c, [], AfterSync(c, [m1, m2], t1));
  }

  lemma KeysWhereUntouched(c: Case, stored: seq<Stored>, owner: Movement, other: Movement, b: string)
    requires Untouched(c, stored, b) && InGroup(c, owner, b) && InGroup(c, other, b)
    requires Identify(other) != Identify(owner) && Before(c, other, owner)
    ensures Prepared(c, [owner], stored) == [(owner, b)]
    ensures Prepared(c, [other, owner], stored) == [(other, b), (owner, b + "#2")]
  {
    OnePrepared(c, owner, stored, b);
    TwoPrepared(c, other, owner, stored, b);
    FirstKey(c, stored, b, owner);
    FirstKeys(c, stored, b, other, owner);
    PairAt([owner], [b]);
    PairAt([other, owner], [b, b + "#2"]);
  }

  /** A movement whose folio ends in `#2` is stored alone, two movements of the folio without it take its key, and then it
      is scraped again: alone it is given its old key, but behind a new sibling another one. */
  lemma TheftChangesLaterKey(c: Case, m1: Movement, m2: Movement, owner: Movement, other: Movement, base: string)
    requires c.aliases == [] && InGroup(c, m1, base) && InGroup(c, m2, base)
    requires InGroup(c, owner, base + "#2") && InGroup(c, other, base + "#2")
    requires Identify(m1) != Identify(m2) && Identify(other) != Identify(owner) && Before(c, m1, m2) && Before(c, other, owner)
    ensures var b := base + "#2"; var then_ := AfterSyncs(c, [[owner], [m1, m2]], []);
      && Prepared(c, [owner], []) == [(owner, b)]
      && Prepared(c, [owner], then_) == [(owner, b)]
      && Prepared(c, [other, owner], then_) == [(other, b), (owner, b + "#2")]
  {
    FirstSync(c, owner, base + "#2");
    AfterTheft(c, m1, m2, owner, base);
    ThievesAreOfTheirBase(c, m1, m2, base);
    KeysWhereUntouched(c, AfterSyncs(c, [[owner], [m1, m2]], []), owner, other, base + "#2");
  }

  lemma PersistTwo(m: Movement, k: string, n: Movement, l: string)
    ensures Persist([(m, k)]) == [Stored(k, Some(m))]
    ensures Persist([(m, k), (n, l)]) == [Stored(k, Some(m)), Stored(l, Some(n))]
  {
    assert [(m, k), (n, l)][1..] == [(n, l)] && [(m, k)][1..] == [] && [(n, l)][1..] == [];
  }

  /** The second of two given keys is the one row's. */
  lemma TwoOverwrite(e: Stored, m: Movement, k: string, n: Movement)
    requires k != e.key
    ensures var p := [(m, k), (n, e.key)];
      DistinctKeys(p) && Without([e], KeysOf(p)) + Persist(p) == [Stored(k, Some(m)), Stored(e.key, Some(n))]
  {
    var p := [(m, k), (n, e.key)];
    assert p[1] in p && p[1].1 in KeysOf(p);
    assert [e][1..] == [];
    assert Without([e], KeysOf(p)) == [];
    PersistTwo(m, k, n, e.key);
  }

  lemma ThievesAreOfTheirBase(c: Case, m1: Movement, m2: Movement, base: string)
    requires c.aliases == [] && InGroup(c, m1, base) && InGroup(c, m2, base)
    ensures Untouched(c, [Stored(base, Some(m1)), Stored(base + "#2", Some(m2))], base + "#2")
  {
    assert BasesOf(c, m1) == [base] && BasesOf(c, m2) == [base];
    FirstMatchIs([base], base);
    FirstMatchIs([base], base + "#2");
    assert base + "#2" != base;
  }
}
