/** Whole results: which keys are given, and when exactly one key is given to two movements. */
module KeyAgreement {
  import opened Base
  import opened KeyText
  import opened MovementKeys
  import opened MovementTheorems
  import opened KeyStability

  /** The logical movement (base, id) of `ms` is given `key`. */
  ghost predicate Gets(c: Case, ms: seq<Movement>, stored: seq<Stored>, base: string, id: Identity, key: string) {
    exists i :: 0 <= i < |Sorted(c, ms, base)| && Identify(Sorted(c, ms, base)[i]) == id && Keys(c, ms, stored, base)[i] == key
  }

  /** `key` is the least stored key of the logical movement. */
  ghost predicate Settled(c: Case, stored: seq<Stored>, b: string, id: Identity, key: string) {
    && StoredKey(c, stored, b, id, key)
    && forall k | StoredKey(c, stored, b, id, k) :: Leq(KeyOrder(b, key), KeyOrder(b, k))
  }

  // ----- clashes

  /** `base` has enough new movements for its `n`-th key, which no row of it reserves. */
  ghost predicate Taken(c: Case, ms: seq<Movement>, stored: seq<Stored>, base: string, n: nat) {
    && n >= 1 && Candidate(base, n) !in ReservedKeys(c, stored, base)
    && FreeBelow(base, ReservedKeys(c, stored, base), n) < |NewRows(c, stored, base, Sorted(c, ms, base))|
  }

  /** New movements of `base` reach the key of a row that is stored for another base. */
  ghost predicate Steals(c: Case, ms: seq<Movement>, stored: seq<Stored>, base: string, n: nat, e: Stored) {
    Taken(c, ms, stored, base, n) && Exposed(c, stored, base, e, n)
  }

  /** New movements of `b2` reach the first key of new movements of `b1`. */
  ghost predicate BasesMeet(c: Case, ms: seq<Movement>, stored: seq<Stored>, b1: string, b2: string, n: nat) {
    b1 != b2 && Taken(c, ms, stored, b1, 1) && Taken(c, ms, stored, b2, n) && b1 == Candidate(b2, n)
  }

  /** The movement of a stored row was scraped too, and this is the least of its keys. */
  ghost predicate OwnerIsPresent(c: Case, ms: seq<Movement>, stored: seq<Stored>, e: Stored) {
    var r := Recognise(c, e);
    r.Some? && Wanted(c, ms, r.value.base, r.value.id) && Settled(c, stored, r.value.base, r.value.id, e.key)
  }

  /** Within the result. */
  ghost predicate Repeats(c: Case, ms: seq<Movement>, stored: seq<Stored>) {
    || (exists b1, b2, n :: BasesMeet(c, ms, stored, b1, b2, n))
    || (exists b, n, e :: Steals(c, ms, stored, b, n, e) && OwnerIsPresent(c, ms, stored, e))
  }

  /** Within the result, or between it and what is stored. */
  ghost predicate Clashes(c: Case, ms: seq<Movement>, stored: seq<Stored>) {
    || (exists b1, b2, n :: BasesMeet(c, ms, stored, b1, b2, n))
    || (exists b, n, e :: Steals(c, ms, stored, b, n, e))
  }

  /** What a given key is, in terms of stored rows only. */
  lemma GetsOrigin(c: Case, ms: seq<Movement>, stored: seq<Stored>, base: string, id: Identity, key: string)
    requires Gets(c, ms, stored, base, id, key) && UniqueStored(c, stored)
    ensures
      if exists k :: StoredKey(c, stored, base, id, k)
      then StoredKey(c, stored, base, id, key)
           && forall k | StoredKey(c, stored, base, id, k) :: Leq(KeyOrder(base, key), KeyOrder(base, k))
      else IsKeyForBase(key, base) && key !in ReservedKeys(c, stored, base)
  {
    var rows := Sorted(c, ms, base);
    SortedFacts(c, ms, base);
    var i :| 0 <= i < |rows| && Identify(rows[i]) == id && Keys(c, ms, stored, base)[i] == key;
    if exists k :: StoredKey(c, stored, base, id, k) {
      KeysAreStable(c, stored, base, rows, i);
    } else {
      FreshKeyIsFree(c, stored, base, rows, i);
    }
  }

  lemma GetsIsFunction(c: Case, ms: seq<Movement>, stored: seq<Stored>, base: string, id: Identity, k1: string, k2: string)
    requires Gets(c, ms, stored, base, id, k1) && Gets(c, ms, stored, base, id, k2)
    ensures k1 == k2
  {
    SortedFacts(c, ms, base);
  }

  lemma LaterKeyDiffers(c: Case, stored: seq<Stored>, base: string, rows: seq<Movement>, i: nat, j: nat)
    requires i < j < |rows|
    ensures AssignKeys(c, stored, base, rows)[i] != AssignKeys(c, stored, base, rows)[j]
  {
    var keys := AssignKeys(c, stored, base, rows);
    KeyOrigin(c, stored, base, rows, j);
    assert keys[..j][i] == keys[i];
  }

  lemma DistinctInOneBase(c: Case, ms: seq<Movement>, stored: seq<Stored>, base: string, id1: Identity, id2: Identity, key: string)
    requires Gets(c, ms, stored, base, id1, key) && Gets(c, ms, stored, base, id2, key)
    ensures id1 == id2
  {
    var rows, keys := Sorted(c, ms, base), Keys(c, ms, stored, base);
    var i :| 0 <= i < |rows| && Identify(rows[i]) == id1 && keys[i] == key;
    var j :| 0 <= j < |rows| && Identify(rows[j]) == id2 && keys[j] == key;
    if i < j {
      LaterKeyDiffers(c, stored, base, rows, i, j);
    } else if j < i {
      LaterKeyDiffers(c, stored, base, rows, j, i);
    }
  }

  /** The suffix candidates given to new movements are exactly those taken. */
  lemma TakenIsGiven(c: Case, ms: seq<Movement>, stored: seq<Stored>, base: string, n: nat) returns (id: Identity)
    requires UniqueStored(c, stored) && Taken(c, ms, stored, base, n)
    ensures Gets(c, ms, stored, base, id, Candidate(base, n)) && IsNew(c, stored, base, id)
  {
    var rows, keys := Sorted(c, ms, base), Keys(c, ms, stored, base);
    SortedFacts(c, ms, base);
    FreshKeysInOrder(c, stored, base, rows);
    var i :| 0 <= i < |rows| && keys[i] == Candidate(base, n);
    id := Identify(rows[i]);
    assert Gets(c, ms, stored, base, id, keys[i]);
    if !IsNew(c, stored, base, id) {
      GetsOrigin(c, ms, stored, base, id, keys[i]);
      StoredCandidateIsReserved(c, stored, base, id, n);
    }
  }

  lemma GivenIsTaken(c: Case, ms: seq<Movement>, stored: seq<Stored>, base: string, id: Identity, key: string) returns (n: nat)
    requires UniqueStored(c, stored) && Gets(c, ms, stored, base, id, key) && IsNew(c, stored, base, id)
    ensures Taken(c, ms, stored, base, n) && key == Candidate(base, n)
  {
    var rows, keys := Sorted(c, ms, base), Keys(c, ms, stored, base);
    SortedFacts(c, ms, base);
    var i :| 0 <= i < |rows| && Identify(rows[i]) == id && keys[i] == key;
    FreshKeyIsFree(c, stored, base, rows, i);
    FreshKeyIsCandidate(c, stored, base, rows, i);
    FreshKeysInOrder(c, stored, base, rows);
    n :| n >= 1 && key == Candidate(base, n);
    assert key in Elements(keys);
  }

  /** A new movement that is given the key of a stored row steals it. */
  lemma NewTakesStored(c: Case, ms: seq<Movement>, stored: seq<Stored>, b: string, id: Identity, e: Stored)
    requires UniqueStored(c, stored) && Gets(c, ms, stored, b, id, e.key) && IsNew(c, stored, b, id)
    requires e in stored && Recognise(c, e).Some?
    ensures exists n :: Steals(c, ms, stored, b, n, e)
  {
    var n := GivenIsTaken(c, ms, stored, b, id, e.key);
    assert Steals(c, ms, stored, b, n, e);
  }

  /** Two movements of different bases that are given one key, one of them stored under it. */
  lemma StoredAndOther(c: Case, ms: seq<Movement>, stored: seq<Stored>,
                       b1: string, id1: Identity, b2: string, id2: Identity, key: string)
    requires UniqueStored(c, stored) && StoredKey(c, stored, b1, id1, key) && Gets(c, ms, stored, b2, id2, key)
    requires !(b1 == b2 && id1 == id2)
    ensures exists n, e :: Steals(c, ms, stored, b2, n, e) && StoredFor(c, e, b1, id1) && e.key == key
  {
    var e :| e in stored && StoredFor(c, e, b1, id1) && e.key == key;
    if IsNew(c, stored, b2, id2) {
      NewTakesStored(c, ms, stored, b2, id2, e);
    } else {
      GetsOrigin(c, ms, stored, b2, id2, key);
      assert false;
    }
  }

  lemma NewAndNew(c: Case, ms: seq<Movement>, stored: seq<Stored>,
                  b1: string, id1: Identity, b2: string, id2: Identity, key: string)
    requires UniqueStored(c, stored) && b1 != b2 && IsNew(c, stored, b1, id1) && IsNew(c, stored, b2, id2)
    requires Gets(c, ms, stored, b1, id1, key) && Gets(c, ms, stored, b2, id2, key)
    ensures exists x, y, n :: BasesMeet(c, ms, stored, x, y, n)
  {
    var n1 := GivenIsTaken(c, ms, stored, b1, id1, key);
    var n2 := GivenIsTaken(c, ms, stored, b2, id2, key);
    CandidatesMeet(b1, n1, b2, n2);
    if b1 == Candidate(b2, n2) {
      CandidateInjective(b1, n1, 1);
      assert BasesMeet(c, ms, stored, b1, b2, n2);
    } else {
      CandidateInjective(b2, n2, 1);
      assert BasesMeet(c, ms, stored, b2, b1, n1);
    }
  }

  lemma GivenIsLeast(c: Case, ms: seq<Movement>, stored: seq<Stored>, b: string, id: Identity, key: string)
    requires UniqueStored(c, stored) && Gets(c, ms, stored, b, id, key)
    ensures Wanted(c, ms, b, id)
    ensures !IsNew(c, stored, b, id) ==> Settled(c, stored, b, id, key)
  {
    SortedFacts(c, ms, b);
    assert id in IdSet(Sorted(c, ms, b));
    GetsOrigin(c, ms, stored, b, id, key);
  }

  /** Two movements of this result are given this key. */
  ghost predicate GivenTwice(c: Case, ms: seq<Movement>, stored: seq<Stored>, b1: string, id1: Identity, b2: string, id2: Identity,
                             key: string) {
    Gets(c, ms, stored, b1, id1, key) && Gets(c, ms, stored, b2, id2, key) && !(b1 == b2 && id1 == id2)
  }

  lemma GivenTwiceRepeats(c: Case, ms: seq<Movement>, stored: seq<Stored>,
                          b1: string, id1: Identity, b2: string, id2: Identity, key: string)
    requires UniqueStored(c, stored) && GivenTwice(c, ms, stored, b1, id1, b2, id2, key)
    ensures Repeats(c, ms, stored)
  {
    GivenIsLeast(c, ms, stored, b1, id1, key);
    GivenIsLeast(c, ms, stored, b2, id2, key);
    if b1 == b2 {
      DistinctInOneBase(c, ms, stored, b1, id1, id2, key);
    } else if !IsNew(c, stored, b1, id1) {
      StoredAndOther(c, ms, stored, b1, id1, b2, id2, key);
      var n, e :| Steals(c, ms, stored, b2, n, e) && StoredFor(c, e, b1, id1) && e.key == key;
      assert OwnerIsPresent(c, ms, stored, e);
    } else if !IsNew(c, stored, b2, id2) {
      StoredAndOther(c, ms, stored, b2, id2, b1, id1, key);
      var n, e :| Steals(c, ms, stored, b1, n, e) && StoredFor(c, e, b2, id2) && e.key == key;
      assert OwnerIsPresent(c, ms, stored, e);
    } else {
      NewAndNew(c, ms, stored, b1, id1, b2, id2, key);
    }
  }

  /** One key, one logical movement: over all bases of one result, unless it repeats a key. */
  lemma KeysAreDistinct(c: Case, ms: seq<Movement>, stored: seq<Stored>,
                        b1: string, id1: Identity, b2: string, id2: Identity, key: string)
    requires UniqueStored(c, stored) && !Repeats(c, ms, stored)
    requires Gets(c, ms, stored, b1, id1, key) && Gets(c, ms, stored, b2, id2, key)
    ensures b1 == b2 && id1 == id2
  {
    if !(b1 == b2 && id1 == id2) {
      GivenTwiceRepeats(c, ms, stored, b1, id1, b2, id2, key);
    }
  }

  lemma ClashingBasesClash(c: Case, ms: seq<Movement>, stored: seq<Stored>, b1: string, b2: string, n: nat)
    requires UniqueStored(c, stored) && BasesMeet(c, ms, stored, b1, b2, n)
    ensures exists id1, id2 :: GivenTwice(c, ms, stored, b1, id1, b2, id2, b1)
  {
    var id1 := TakenIsGiven(c, ms, stored, b1, 1);
    var id2 := TakenIsGiven(c, ms, stored, b2, n);
    assert GivenTwice(c, ms, stored, b1, id1, b2, id2, b1);
  }

  /** The thief's base is not the owner's, where the key would be reserved. */
  lemma ThiefIsOfAnotherBase(c: Case, ms: seq<Movement>, stored: seq<Stored>, b: string, n: nat, e: Stored)
    requires Steals(c, ms, stored, b, n, e)
    ensures Recognise(c, e).value.base != b
  {
    if Recognise(c, e).value.base == b {
      assert StoredKey(c, stored, b, Recognise(c, e).value.id, Candidate(b, n));
      StoredCandidateIsReserved(c, stored, b, Recognise(c, e).value.id, n);
    }
  }

  lemma PresentOwnerRepeats(c: Case, ms: seq<Movement>, stored: seq<Stored>, b: string, n: nat, e: Stored)
    requires UniqueStored(c, stored) && Steals(c, ms, stored, b, n, e) && OwnerIsPresent(c, ms, stored, e)
    ensures exists id, b2, id2 :: GivenTwice(c, ms, stored, b, id, b2, id2, e.key)
  {
    var id := TakenIsGiven(c, ms, stored, b, n);
    var r := Recognise(c, e).value;
    ThiefIsOfAnotherBase(c, ms, stored, b, n, e);
    WantedGets(c, ms, stored, r.base, r.id);
    var key :| Gets(c, ms, stored, r.base, r.id, key);
    SettledIsGiven(c, ms, stored, r.base, r.id, e.key, key);
    assert GivenTwice(c, ms, stored, b, id, r.base, r.id, e.key);
  }

  lemma SettledIsGiven(c: Case, ms: seq<Movement>, stored: seq<Stored>, b: string, id: Identity, key: string, key': string)
    requires UniqueStored(c, stored) && Settled(c, stored, b, id, key) && Gets(c, ms, stored, b, id, key')
    ensures key' == key
  {
    GetsOrigin(c, ms, stored, b, id, key');
    LeqAntisymmetric(KeyOrder(b, key), KeyOrder(b, key'));
  }

  /** A result gives one key to two movements exactly when new movements of one of its bases reach the first key of
      another one's, or the stored key of a movement that was scraped too. */
  lemma RepeatsIff(c: Case, ms: seq<Movement>, stored: seq<Stored>)
    requires UniqueStored(c, stored)
    ensures (exists b1, id1, b2, id2, key :: GivenTwice(c, ms, stored, b1, id1, b2, id2, key)) <==> Repeats(c, ms, stored)
  {
    if b1, id1, b2, id2, key :| GivenTwice(c, ms, stored, b1, id1, b2, id2, key) {
      GivenTwiceRepeats(c, ms, stored, b1, id1, b2, id2, key);
    }
    if b1, b2, n :| BasesMeet(c, ms, stored, b1, b2, n) {
      ClashingBasesClash(c, ms, stored, b1, b2, n);
    } else if b, n, e :| Steals(c, ms, stored, b, n, e) && OwnerIsPresent(c, ms, stored, e) {
      PresentOwnerRepeats(c, ms, stored, b, n, e);
    }
  }

  // ----- the result as a list

  lemma {:induction false} BaseOrderIs(c: Case, ms: seq<Movement>)
    ensures forall b :: b in BaseOrder(c, ms) <==> exists m :: m in ms && InGroup(c, m, b)
    ensures forall i, j | 0 <= i < j < |BaseOrder(c, ms)| :: BaseOrder(c, ms)[i] != BaseOrder(c, ms)[j]
  {
    if ms != [] {
      var init, m := ms[..|ms| - 1], ms[|ms| - 1];
      BaseOrderIs(c, init);
      assert ms == init + [m];
      if m.rawFecha != "" { assert InGroup(c, m, BaseOf(c, m)); }
    }
  }

  lemma {:induction false} PairAt(rows: seq<Movement>, keys: seq<string>)
    requires |rows| == |keys|
    ensures |Pair(rows, keys)| == |rows|
    ensures forall i | 0 <= i < |rows| :: Pair(rows, keys)[i] == (rows[i], keys[i])
  {
    if rows != [] {
      PairAt(rows[..|rows| - 1], keys[..|keys| - 1]);
    }
  }

  ghost predicate Entry(c: Case, ms: seq<Movement>, stored: seq<Stored>, base: string, i: int, m: Movement, key: string) {
    0 <= i < |Sorted(c, ms, base)| && Sorted(c, ms, base)[i] == m && Keys(c, ms, stored, base)[i] == key
  }

  lemma {:induction false} EntriesAre(c: Case, ms: seq<Movement>, stored: seq<Stored>, bases: seq<string>)
    ensures forall m, key | (m, key) in PrepareBases(c, ms, stored, bases) ::
      exists b, i :: b in bases && Entry(c, ms, stored, b, i, m, key)
    ensures forall b, i, m, key | b in bases && Entry(c, ms, stored, b, i, m, key) :: (m, key) in PrepareBases(c, ms, stored, bases)
  {
    if bases != [] {
      var init, b := bases[..|bases| - 1], bases[|bases| - 1];
      EntriesAre(c, ms, stored, init);
      assert bases == init + [b];
      var rows, keys := Sorted(c, ms, b), Keys(c, ms, stored, b);
      PairAt(rows, keys);
      var front, back := PrepareBases(c, ms, stored, init), Pair(rows, keys);
      forall m, key | (m, key) in front + back
        ensures exists b, i :: b in bases && Entry(c, ms, stored, b, i, m, key)
      {
        if (m, key) in back {
          var i :| 0 <= i < |back| && back[i] == (m, key);
          assert Entry(c, ms, stored, b, i, m, key);
        } else {
          var b', i :| b' in init && Entry(c, ms, stored, b', i, m, key);
        }
      }
      forall b', i, m, key | b' in bases && Entry(c, ms, stored, b', i, m, key)
        ensures (m, key) in front + back
      {
        if b' == b { assert back[i] == (m, key); }
      }
    }
  }

  lemma PreparedGets(c: Case, ms: seq<Movement>, stored: seq<Stored>, m: Movement, key: string)
    requires (m, key) in Prepared(c, ms, stored)
    ensures m in GroupRows(c, ms, BaseOf(c, m))
    ensures Wanted(c, ms, BaseOf(c, m), Identify(m)) && Gets(c, ms, stored, BaseOf(c, m), Identify(m), key)
  {
    var bases := BaseOrder(c, ms);
    EntriesAre(c, ms, stored, bases);
    var b, i :| b in bases && Entry(c, ms, stored, b, i, m, key);
    SortedFacts(c, ms, b);
    assert m in Sorted(c, ms, b);
    assert Identify(m) in IdSet(Sorted(c, ms, b));
  }

  lemma GetsPrepared(c: Case, ms: seq<Movement>, stored: seq<Stored>, b: string, id: Identity, key: string)
    requires Gets(c, ms, stored, b, id, key)
    ensures exists m :: (m, key) in Prepared(c, ms, stored) && BaseOf(c, m) == b && Identify(m) == id
  {
    var rows := Sorted(c, ms, b);
    var i :| 0 <= i < |rows| && Identify(rows[i]) == id && Keys(c, ms, stored, b)[i] == key;
    SortedFacts(c, ms, b);
    assert rows[i] in rows;
    assert id in IdSet(rows);
    var m :| Duplicate(c, ms, b, id, m);
    BaseOrderIs(c, ms);
    assert b in BaseOrder(c, ms);
    EntriesAre(c, ms, stored, BaseOrder(c, ms));
    assert Entry(c, ms, stored, b, i, rows[i], key);
  }

  lemma WantedGets(c: Case, ms: seq<Movement>, stored: seq<Stored>, b: string, id: Identity)
    requires Wanted(c, ms, b, id)
    ensures exists key :: Gets(c, ms, stored, b, id, key)
  {
    SortedFacts(c, ms, b);
    var rows := Sorted(c, ms, b);
    var i :| 0 <= i < |rows| && Identify(rows[i]) == id;
    assert Gets(c, ms, stored, b, id, Keys(c, ms, stored, b)[i]);
  }

  /** The output lists exactly the dated logical movements, each with the key it gets. */
  lemma PreparedIsWanted(c: Case, ms: seq<Movement>, stored: seq<Stored>, b: string, id: Identity)
    ensures Wanted(c, ms, b, id)
      <==> exists m, key :: (m, key) in Prepared(c, ms, stored) && BaseOf(c, m) == b && Identify(m) == id
  {
    if Wanted(c, ms, b, id) {
      WantedGets(c, ms, stored, b, id);
      var key :| Gets(c, ms, stored, b, id, key);
      GetsPrepared(c, ms, stored, b, id, key);
    }
    if m, key :| (m, key) in Prepared(c, ms, stored) && BaseOf(c, m) == b && Identify(m) == id {
      PreparedGets(c, ms, stored, m, key);
    }
  }
}
