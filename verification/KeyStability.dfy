/** Keys of one base: stable for stored movements, free and taken in order for new ones. */
module KeyStability {
  import opened Base
  import opened KeyText
  import opened MovementKeys
  import opened MovementTheorems

  // ----- sorting

  ghost predicate InOrder(c: Case, rows: seq<Movement>) {
    forall i, j | 0 <= i < j < |rows| :: Leq(MovementSortKey(c, rows[i]), MovementSortKey(c, rows[j]))
  }

  ghost predicate Below(c: Case, m: Movement, rows: seq<Movement>) {
    forall x | x in rows :: Leq(MovementSortKey(c, m), MovementSortKey(c, x))
  }

  lemma ConsInOrder(c: Case, m: Movement, rows: seq<Movement>)
    ensures InOrder(c, [m] + rows) <==> Below(c, m, rows) && InOrder(c, rows)
  {
    var r := [m] + rows;
    assert forall i | 0 <= i < |rows| :: r[i + 1] == rows[i];
    if InOrder(c, r) {
      forall x | x in rows ensures Leq(MovementSortKey(c, m), MovementSortKey(c, x)) {
        var i :| 0 <= i < |rows| && rows[i] == x;
        assert r[0] == m && r[i + 1] == x;
      }
      forall i, j | 0 <= i < j < |rows| ensures Leq(MovementSortKey(c, rows[i]), MovementSortKey(c, rows[j])) {
        assert rows[i] == r[i + 1] && rows[j] == r[j + 1];
      }
    }
    if Below(c, m, rows) && InOrder(c, rows) {
      forall i, j | 0 <= i < j < |r| ensures Leq(MovementSortKey(c, r[i]), MovementSortKey(c, r[j])) {
        assert r[j] == rows[j - 1] && r[j] in rows;
        if i > 0 { assert r[i] == rows[i - 1]; }
      }
    }
  }

  lemma {:induction false} InsertSorts(c: Case, m: Movement, rows: seq<Movement>)
    requires InOrder(c, rows)
    ensures var r := Insert(c, m, rows);
      InOrder(c, r) && multiset(r) == multiset(rows) + multiset{m} && |r| == |rows| + 1
  {
    if rows == [] {
    } else {
      var head, tail := rows[0], rows[1..];
      assert rows == [head] + tail;
      ConsInOrder(c, head, tail);
      LeqTotal(MovementSortKey(c, m), MovementSortKey(c, head));
      if Leq(MovementSortKey(c, m), MovementSortKey(c, head)) {
        forall x | x in tail ensures Leq(MovementSortKey(c, m), MovementSortKey(c, x)) {
          LeqTransitive(MovementSortKey(c, m), MovementSortKey(c, head), MovementSortKey(c, x));
        }
        ConsInOrder(c, m, rows);
      } else {
        InsertSorts(c, m, tail);
        var r := Insert(c, m, tail);
        forall x | x in r ensures x == m || x in tail { assert x in multiset(r); }
        ConsInOrder(c, head, r);
      }
    }
  }

  lemma {:induction false} SortSorts(c: Case, rows: seq<Movement>)
    ensures var r := SortRows(c, rows);
      InOrder(c, r) && multiset(r) == multiset(rows) && |r| == |rows|
  {
    if rows != [] {
      SortSorts(c, rows[1..]);
      InsertSorts(c, rows[0], SortRows(c, rows[1..]));
      assert rows == [rows[0]] + rows[1..];
    }
  }

  lemma SameRowsSameIds(r: seq<Movement>, s: seq<Movement>)
    requires multiset(r) == multiset(s)
    ensures IdSet(r) == IdSet(s) && |r| == |s| && (forall m :: m in r <==> m in s)
    ensures DistinctIds(s) ==> DistinctIds(r)
  {
    assert |multiset(r)| == |r| && |multiset(s)| == |s|;
    forall m ensures m in r <==> m in s { assert m in r <==> m in multiset(r); assert m in s <==> m in multiset(s); }
    forall id ensures id in IdSet(r) <==> id in IdSet(s) {
      if id in IdSet(r) { var i :| 0 <= i < |r| && Identify(r[i]) == id; assert r[i] in s; }
      if id in IdSet(s) { var i :| 0 <= i < |s| && Identify(s[i]) == id; assert s[i] in r; }
    }
    if DistinctIds(s) {
      DistinctCard(s);
      SubsetOfDistinct(r, IdSet(s));
    }
  }

  lemma IdSetSnoc(rows: seq<Movement>)
    requires rows != []
    ensures IdSet(rows) == IdSet(rows[..|rows| - 1]) + {Identify(rows[|rows| - 1])}
    ensures DistinctIds(rows) ==> Identify(rows[|rows| - 1]) !in IdSet(rows[..|rows| - 1])
  {
    var init := rows[..|rows| - 1];
    assert forall i | 0 <= i < |init| :: init[i] == rows[i];
  }

  lemma {:induction false} DistinctCard(rows: seq<Movement>)
    ensures DistinctIds(rows) ==> |IdSet(rows)| == |rows|
    ensures |IdSet(rows)| <= |rows|
  {
    if rows != [] {
      DistinctCard(rows[..|rows| - 1]);
      IdSetSnoc(rows);
    }
  }

  lemma SubsetOfDistinct(rows: seq<Movement>, ids: set<Identity>)
    requires IdSet(rows) == ids && |ids| == |rows|
    ensures DistinctIds(rows)
  {
    forall i, j | 0 <= i < j < |rows| ensures Identify(rows[i]) != Identify(rows[j]) {
      if Identify(rows[i]) == Identify(rows[j]) {
        var fewer := rows[..j] + rows[j + 1..];
        DistinctCard(fewer);
        forall id | id in ids ensures id in IdSet(fewer) {
          var k :| 0 <= k < |rows| && Identify(rows[k]) == id;
          if k < j { assert fewer[k] == rows[k]; }
          else if k > j { assert fewer[k - 1] == rows[k]; }
          else { assert fewer[i] == rows[i]; }
        }
        assert ids <= IdSet(fewer);
        SubsetCard(ids, IdSet(fewer));
        assert false;
      }
    }
  }

  /** The sorted rows of one base: one per wanted identity, all of this base. */
  lemma SortedFacts(c: Case, ms: seq<Movement>, base: string)
    ensures var rows := Sorted(c, ms, base);
      && InOrder(c, rows) && DistinctIds(rows)
      && (forall id :: id in IdSet(rows) <==> Wanted(c, ms, base, id))
      && (forall m | m in rows :: InGroup(c, m, base) && m in GroupRows(c, ms, base))
  {
    OneRowPerIdentity(c, ms, base);
    SortSorts(c, GroupRows(c, ms, base));
    SameRowsSameIds(Sorted(c, ms, base), GroupRows(c, ms, base));
  }

  // ----- choosing among stored keys

  lemma {:induction false} BestIsLeast(base: string, keys: seq<string>, used: set<string>)
    ensures match BestKey(base, keys, used)
      case None => forall k | k in keys :: k in used
      case Some(key) =>
        key in keys && key !in used
        && forall k | k in keys && k !in used :: Leq(KeyOrder(base, key), KeyOrder(base, k))
  {
    if keys != [] {
      var init, last := keys[..|keys| - 1], keys[|keys| - 1];
      BestIsLeast(base, init, used);
      assert keys == init + [last];
      var best := BestKey(base, init, used);
      if best.Some? {
        LeqTotal(KeyOrder(base, best.value), KeyOrder(base, last));
        if last !in used && !Leq(KeyOrder(base, best.value), KeyOrder(base, last)) {
          forall k | k in init && k !in used ensures Leq(KeyOrder(base, last), KeyOrder(base, k)) {
            LeqTransitive(KeyOrder(base, last), KeyOrder(base, best.value), KeyOrder(base, k));
          }
        }
      }
      LeqTotal(KeyOrder(base, last), KeyOrder(base, last));
    }
  }

  /** The choice depends only on which keys there are, not on their order or repetition. */
  lemma BestOfSameKeys(base: string, k1: seq<string>, k2: seq<string>, used: set<string>)
    requires forall k :: k in k1 <==> k in k2
    ensures BestKey(base, k1, used) == BestKey(base, k2, used)
  {
    BestIsLeast(base, k1, used);
    BestIsLeast(base, k2, used);
    var b1, b2 := BestKey(base, k1, used), BestKey(base, k2, used);
    if b1.Some? && b2.Some? {
      LeqAntisymmetric(KeyOrder(base, b1.value), KeyOrder(base, b2.value));
    }
  }

  /** A suffix number is its own rank, so among the keys of one base the earliest allocated one wins. */
  lemma RankOfCandidate(base: string, n: nat)
    requires n >= 1
    ensures Rank(Candidate(base, n), base) == if n == 1 then 0 else n
  {
    if n > 1 {
      var key := Candidate(base, n);
      CandidateIsKey(base, n);
      KeyHasSuffixNumber(key, base);
      assert key[|base| + 1..] == Decimal(n);
      ValueOfDecimal(n);
    }
  }

  ghost predicate StoredKey(c: Case, stored: seq<Stored>, base: string, id: Identity, key: string) {
    exists e :: e in stored && StoredFor(c, e, base, id) && e.key == key
  }

  /** No row is stored for this movement. */
  ghost predicate IsNew(c: Case, stored: seq<Stored>, base: string, id: Identity) {
    forall k :: !StoredKey(c, stored, base, id, k)
  }

  lemma {:induction false} HistoricalAre(c: Case, stored: seq<Stored>, base: string, id: Identity)
    ensures forall k :: k in HistoricalKeys(c, stored, base, id) <==> StoredKey(c, stored, base, id, k)
  {
    if stored != [] {
      var init, last := stored[..|stored| - 1], stored[|stored| - 1];
      HistoricalAre(c, init, base, id);
      assert stored == init + [last];
      forall k ensures k in HistoricalKeys(c, stored, base, id) <==> StoredKey(c, stored, base, id, k) {
        if StoredKey(c, init, base, id, k) {
          var e :| e in init && StoredFor(c, e, base, id) && e.key == k;
          assert e in stored;
        }
        if StoredFor(c, last, base, id) && last.key == k { assert last in stored; }
      }
    }
  }

  ghost predicate Reserves(c: Case, stored: seq<Stored>, base: string, key: string) {
    exists e :: e in stored && Recognise(c, e).Some? && Recognise(c, e).value.matching == base && e.key == key
  }

  lemma {:induction false} ReservedAre(c: Case, stored: seq<Stored>, base: string)
    ensures forall k :: k in ReservedKeys(c, stored, base) <==> Reserves(c, stored, base, k)
  {
    if stored != [] {
      var init, last := stored[..|stored| - 1], stored[|stored| - 1];
      ReservedAre(c, init, base);
      assert stored == init + [last];
    }
  }

  lemma {:induction false} FirstMatchIs(bases: seq<string>, key: string)
    ensures match FirstMatch(bases, key)
      case None => forall b | b in bases :: !IsKeyForBase(key, b)
      case Some(b) => b in bases && IsKeyForBase(key, b)
    ensures bases != [] && IsKeyForBase(key, bases[0]) ==> FirstMatch(bases, key) == Some(bases[0])
  {
    if bases != [] {
      FirstMatchIs(bases[1..], key);
    }
  }

  // ----- the assignment of one base

  lemma {:induction false} AssignAt(c: Case, stored: seq<Stored>, base: string, rows: seq<Movement>, i: nat)
    requires i < |rows|
    ensures var keys := AssignKeys(c, stored, base, rows);
      keys[i] == AssignKey(c, stored, base, Identify(rows[i]), Elements(keys[..i]))
  {
    var init := rows[..|rows| - 1];
    var keys := AssignKeys(c, stored, base, rows);
    assert keys[..|init|] == AssignKeys(c, stored, base, init);
    if i < |init| {
      AssignAt(c, stored, base, init, i);
      assert keys[..|init|][..i] == keys[..i];
    }
  }

  /** Every assigned key is a stored key of that very identity, or a free key of this base. */
  lemma KeyOrigin(c: Case, stored: seq<Stored>, base: string, rows: seq<Movement>, i: nat)
    requires i < |rows|
    ensures var keys := AssignKeys(c, stored, base, rows); var id := Identify(rows[i]);
      && keys[i] !in Elements(keys[..i])
      && if BestKey(base, HistoricalKeys(c, stored, base, id), Elements(keys[..i])).Some?
         then StoredKey(c, stored, base, id, keys[i])
         else IsKeyForBase(keys[i], base) && keys[i] !in ReservedKeys(c, stored, base)
  {
    AssignAt(c, stored, base, rows, i);
    var keys := AssignKeys(c, stored, base, rows);
    var used, id := Elements(keys[..i]), Identify(rows[i]);
    BestIsLeast(base, HistoricalKeys(c, stored, base, id), used);
    HistoricalAre(c, stored, base, id);
    var reserved := ReservedKeys(c, stored, base);
    CandidateIsKey(base, FirstFree(base, reserved + used, 1));
  }

  /** No key is stored for two different logical movements. */
  ghost predicate UniqueStored(c: Case, stored: seq<Stored>) {
    forall e1, e2 | e1 in stored && e2 in stored && e1.key == e2.key && Recognise(c, e1).Some? && Recognise(c, e2).Some? ::
      Recognise(c, e1).value.base == Recognise(c, e2).value.base && Recognise(c, e1).value.id == Recognise(c, e2).value.id
  }

  /** A key stored for this identity was not taken by an earlier sibling. */
  lemma StoredKeyStaysFree(c: Case, stored: seq<Stored>, base: string, rows: seq<Movement>, i: nat, key: string)
    requires UniqueStored(c, stored) && DistinctIds(rows) && i < |rows|
    requires StoredKey(c, stored, base, Identify(rows[i]), key)
    ensures key !in Elements(AssignKeys(c, stored, base, rows)[..i])
  {
    var keys := AssignKeys(c, stored, base, rows);
    if key in Elements(keys[..i]) {
      var j :| 0 <= j < i && keys[j] == key;
      KeyOrigin(c, stored, base, rows, j);
      var e :| e in stored && StoredFor(c, e, base, Identify(rows[i])) && e.key == key;
      FirstMatchIs(BasesOf(c, e.payload.value), key);
      ReservedAre(c, stored, base);
      assert false;
    }
  }

  /** Key stability: a movement that is already stored gets the least-ranked of its stored keys,
      whatever other rows were scraped or stored. */
  lemma KeysAreStable(c: Case, stored: seq<Stored>, base: string, rows: seq<Movement>, i: nat)
    requires UniqueStored(c, stored) && DistinctIds(rows) && i < |rows|
    requires exists k :: StoredKey(c, stored, base, Identify(rows[i]), k)
    ensures var key := AssignKeys(c, stored, base, rows)[i];
      && StoredKey(c, stored, base, Identify(rows[i]), key)
      && forall k | StoredKey(c, stored, base, Identify(rows[i]), k) :: Leq(KeyOrder(base, key), KeyOrder(base, k))
  {
    var keys := AssignKeys(c, stored, base, rows);
    var id, used := Identify(rows[i]), Elements(keys[..i]);
    AssignAt(c, stored, base, rows, i);
    HistoricalAre(c, stored, base, id);
    BestIsLeast(base, HistoricalKeys(c, stored, base, id), used);
    forall k | StoredKey(c, stored, base, id, k) ensures k !in used {
      StoredKeyStaysFree(c, stored, base, rows, i, k);
    }
  }

  /** A movement not stored yet gets a key of its own base that no recognised row of that base has. */
  lemma FreshKeyIsFree(c: Case, stored: seq<Stored>, base: string, rows: seq<Movement>, i: nat)
    requires i < |rows| && IsNew(c, stored, base, Identify(rows[i]))
    ensures var key := AssignKeys(c, stored, base, rows)[i];
      && IsKeyForBase(key, base) && key !in ReservedKeys(c, stored, base)
  {
    KeyOrigin(c, stored, base, rows, i);
  }

  /** Another base's row has a key the suffix search of `base` may come across, and nothing reserves it there. */
  ghost predicate Exposed(c: Case, stored: seq<Stored>, base: string, e: Stored, n: nat) {
    n >= 1 && e in stored && Recognise(c, e).Some? && e.key == Candidate(base, n) && e.key !in ReservedKeys(c, stored, base)
  }

  lemma FreshKeyIsCandidate(c: Case, stored: seq<Stored>, base: string, rows: seq<Movement>, i: nat)
    requires i < |rows| && IsNew(c, stored, base, Identify(rows[i]))
    ensures exists n: nat :: n >= 1 && AssignKeys(c, stored, base, rows)[i] == Candidate(base, n)
  {
    AssignAt(c, stored, base, rows, i);
    HistoricalAre(c, stored, base, Identify(rows[i]));
    var used := Elements(AssignKeys(c, stored, base, rows)[..i]);
    BestIsLeast(base, HistoricalKeys(c, stored, base, Identify(rows[i])), used);
    assert FirstFree(base, ReservedKeys(c, stored, base) + used, 1) >= 1;
  }

  /** A new movement's key is nobody's stored key, as long as no stored key is exposed to its base. */
  lemma FreshKeyIsNobodys(c: Case, stored: seq<Stored>, base: string, rows: seq<Movement>, i: nat, e: Stored)
    requires i < |rows| && IsNew(c, stored, base, Identify(rows[i]))
    requires e in stored && Recognise(c, e).Some? && forall n: nat :: !Exposed(c, stored, base, e, n)
    ensures AssignKeys(c, stored, base, rows)[i] != e.key
  {
    FreshKeyIsFree(c, stored, base, rows, i);
    FreshKeyIsCandidate(c, stored, base, rows, i);
    if AssignKeys(c, stored, base, rows)[i] == e.key {
      var n: nat :| n >= 1 && e.key == Candidate(base, n);
      assert Exposed(c, stored, base, e, n);
    }
  }

  // ----- which keys new movements take

  ghost function NewRows(c: Case, stored: seq<Stored>, base: string, rows: seq<Movement>): seq<Movement> {
    if rows == [] then []
    else
      var last := rows[|rows| - 1];
      NewRows(c, stored, base, rows[..|rows| - 1]) + if IsNew(c, stored, base, Identify(last)) then [last] else []
  }

  /** How many suffix numbers below `n` are not reserved. */
  function FreeBelow(base: string, reserved: set<string>, n: nat): (r: nat)
    ensures n >= 1 ==> r <= n - 1
  {
    if n <= 1 then 0 else FreeBelow(base, reserved, n - 1) + if Candidate(base, n - 1) in reserved then 0 else 1
  }

  lemma {:induction false} FreeBelowGrows(base: string, reserved: set<string>, m: nat, n: nat)
    requires 1 <= m < n
    ensures FreeBelow(base, reserved, m) <= FreeBelow(base, reserved, n)
    ensures Candidate(base, m) !in reserved ==> FreeBelow(base, reserved, m) < FreeBelow(base, reserved, n)
  {
    if m < n - 1 {
      FreeBelowGrows(base, reserved, m, n - 1);
    }
  }

  lemma {:induction false} FreeBelowAtMost(base: string, reserved: set<string>, k: nat, n: nat)
    requires forall m: nat | 1 <= m < n && Candidate(base, m) !in reserved :: FreeBelow(base, reserved, m) < k
    ensures FreeBelow(base, reserved, n) <= k
  {
    if n > 1 {
      FreeBelowAtMost(base, reserved, k, n - 1);
    }
  }

  /** `key` is the unreserved candidate with exactly `k` unreserved ones before it, and `r` its number. */
  predicate IsNext(base: string, reserved: set<string>, k: nat, key: string, r: nat) {
    r >= 1 && key == Candidate(base, r) && key !in reserved && FreeBelow(base, reserved, r) == k
  }

  /** The position among the unreserved candidates and the key determine each other. */
  lemma NextIsOne(base: string, reserved: set<string>, k1: nat, key1: string, r1: nat, k2: nat, key2: string, r2: nat)
    requires IsNext(base, reserved, k1, key1, r1) && IsNext(base, reserved, k2, key2, r2)
    ensures k1 == k2 <==> key1 == key2
  {
    if key1 == key2 {
      CandidateInjective(base, r1, r2);
    }
    if r1 < r2 {
      FreeBelowGrows(base, reserved, r1, r2);
    } else if r2 < r1 {
      FreeBelowGrows(base, reserved, r2, r1);
    }
  }

  /** Of the unreserved candidates exactly the first `k` are used. */
  ghost predicate TakenInOrder(base: string, reserved: set<string>, used: set<string>, k: nat) {
    forall n: nat | n >= 1 && Candidate(base, n) !in reserved ::
      Candidate(base, n) in used <==> FreeBelow(base, reserved, n) < k
  }

  lemma NextFresh(c: Case, stored: seq<Stored>, base: string, rows: seq<Movement>, k: nat) returns (r: nat)
    requires rows != [] && IsNew(c, stored, base, Identify(rows[|rows| - 1]))
    requires TakenInOrder(base, ReservedKeys(c, stored, base), Elements(AssignKeys(c, stored, base, rows[..|rows| - 1])), k)
    ensures IsNext(base, ReservedKeys(c, stored, base), k, AssignKeys(c, stored, base, rows)[|rows| - 1], r)
  {
    var last := rows[|rows| - 1];
    var reserved, used := ReservedKeys(c, stored, base), Elements(AssignKeys(c, stored, base, rows[..|rows| - 1]));
    HistoricalAre(c, stored, base, Identify(last));
    BestIsLeast(base, HistoricalKeys(c, stored, base, Identify(last)), used);
    r := FirstFree(base, reserved + used, 1);
    FreeBelowAtMost(base, reserved, k, r);
  }

  lemma OneMoreTaken(base: string, reserved: set<string>, used: set<string>, k: nat, key: string, r: nat)
    requires TakenInOrder(base, reserved, used, k) && IsNext(base, reserved, k, key, r)
    ensures TakenInOrder(base, reserved, used + {key}, k + 1)
  {
    forall n: nat | n >= 1 && Candidate(base, n) !in reserved
      ensures Candidate(base, n) in used + {key} <==> FreeBelow(base, reserved, n) < k + 1
    {
      if n != r {
        if Candidate(base, n) == Candidate(base, r) { CandidateInjective(base, n, r); }
        if n < r { FreeBelowGrows(base, reserved, n, r); } else { FreeBelowGrows(base, reserved, r, n); }
      }
    }
  }

  /** A stored key of this base that the suffix search could come across is reserved. */
  lemma StoredCandidateIsReserved(c: Case, stored: seq<Stored>, base: string, id: Identity, n: nat)
    requires n >= 1 && StoredKey(c, stored, base, id, Candidate(base, n))
    ensures Candidate(base, n) in ReservedKeys(c, stored, base)
  {
    var e :| e in stored && StoredFor(c, e, base, id) && e.key == Candidate(base, n);
    CandidateIsKey(base, n);
    FirstMatchIs(BasesOf(c, e.payload.value), e.key);
    ReservedAre(c, stored, base);
    assert Reserves(c, stored, base, e.key);
  }

  lemma NoneTaken(c: Case, stored: seq<Stored>, base: string, used: set<string>, k: nat, id: Identity, key: string)
    requires TakenInOrder(base, ReservedKeys(c, stored, base), used, k) && StoredKey(c, stored, base, id, key)
    ensures TakenInOrder(base, ReservedKeys(c, stored, base), used + {key}, k)
  {
    forall n: nat | n >= 1 && Candidate(base, n) !in ReservedKeys(c, stored, base)
      ensures Candidate(base, n) in used + {key} <==> FreeBelow(base, ReservedKeys(c, stored, base), n) < k
    {
      if key == Candidate(base, n) {
        StoredCandidateIsReserved(c, stored, base, id, n);
      }
    }
  }

  /** New movements take the unreserved keys of their base in order, one each, leaving none out, whatever siblings are
      stored already. */
  lemma {:induction false} FreshKeysInOrder(c: Case, stored: seq<Stored>, base: string, rows: seq<Movement>)
    requires UniqueStored(c, stored) && DistinctIds(rows)
    ensures TakenInOrder(base, ReservedKeys(c, stored, base), Elements(AssignKeys(c, stored, base, rows)),
                         |NewRows(c, stored, base, rows)|)
    decreases |rows|
  {
    if rows != [] {
      var init, last := rows[..|rows| - 1], rows[|rows| - 1];
      FreshKeysInOrder(c, stored, base, init);
      var keys := AssignKeys(c, stored, base, init);
      var k, key := |NewRows(c, stored, base, init)|, AssignKeys(c, stored, base, rows)[|init|];
      ElementsSnoc(keys, key);
      if IsNew(c, stored, base, Identify(last)) {
        var r := NextFresh(c, stored, base, rows, k);
        OneMoreTaken(base, ReservedKeys(c, stored, base), Elements(keys), k, key, r);
      } else {
        KeysAreStable(c, stored, base, rows, |init|);
        NoneTaken(c, stored, base, Elements(keys), k, Identify(last), key);
      }
    }
  }

  /** An exposed key is taken by new movements exactly when there are more of them than unreserved keys before it;
      in particular whenever there are as many as its suffix number. */
  lemma ExposedKeyIsTakenIff(c: Case, stored: seq<Stored>, base: string, rows: seq<Movement>, e: Stored, n: nat)
    requires UniqueStored(c, stored) && DistinctIds(rows) && Exposed(c, stored, base, e, n)
    ensures e.key in AssignKeys(c, stored, base, rows)
            <==> FreeBelow(base, ReservedKeys(c, stored, base), n) < |NewRows(c, stored, base, rows)|
    ensures |NewRows(c, stored, base, rows)| >= n ==> e.key in AssignKeys(c, stored, base, rows)
  {
    FreshKeysInOrder(c, stored, base, rows);
    var keys := AssignKeys(c, stored, base, rows);
    assert e.key in keys <==> e.key in Elements(keys);
  }

  /** Such a key exists: a stored row whose folio ends in `#2` loses its key to the second of two siblings under
      the folio without the suffix. */
  lemma SuffixedFolioIsStolen(c: Case, m1: Movement, m2: Movement, owner: Movement)
    requires c.aliases == [] && m1.rawFolio.Some? && owner.rawFolio == Some(m1.rawFolio.value + "#2")
    requires owner.rawCuaderno == m1.rawCuaderno && BaseOf(c, m1) == BaseOf(c, m2)
    requires Identify(m1) != Identify(m2)
    ensures var stored := [Stored(BaseOf(c, owner), Some(owner))];
      && Recognise(c, stored[0]) == Some(Recognised(BaseOf(c, owner), Identify(owner), stored[0].key, BaseOf(c, owner)))
      && AssignKeys(c, stored, BaseOf(c, m1), [m1, m2])[1] == stored[0].key
  {
    var base, e := BaseOf(c, m1), Stored(BaseOf(c, owner), Some(owner));
    assert BaseOf(c, owner) == base + "#2";
    assert Decimal(2) == "2";
    FirstMatchIs(BasesOf(c, owner), e.key);
    HistoricalAre(c, [e], base, Identify(m1));
    HistoricalAre(c, [e], base, Identify(m2));
    ReservedAre(c, [e], base);
    AssignAt(c, [e], base, [m1, m2], 0);
    AssignAt(c, [e], base, [m1, m2], 1);
    var keys := AssignKeys(c, [e], base, [m1, m2]);
    assert keys[..0] == [] && keys[..1] == [keys[0]];
    BestIsLeast(base, HistoricalKeys(c, [e], base, Identify(m1)), Elements(keys[..0]));
    BestIsLeast(base, HistoricalKeys(c, [e], base, Identify(m2)), Elements(keys[..1]));
    assert ReservedKeys(c, [e], base) == {};
    assert Candidate(base, 1) == base && Candidate(base, 2) == base + "#2";
    assert FirstFree(base, {}, 1) == 1;
    assert keys[0] == base;
    assert Elements([base]) == {base};
    assert FirstFree(base, {base}, 1) == 2;
  }
}
