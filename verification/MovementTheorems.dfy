/** What key assignment guarantees, for all scraped rows and all stored rows. */
module MovementTheorems {
  import opened Base
  import opened KeyText
  import opened MovementKeys

  // ----- groups

  ghost function IdSet(rows: seq<Movement>): set<Identity> {
    set i | 0 <= i < |rows| :: Identify(rows[i])
  }

  ghost predicate DistinctIds(rows: seq<Movement>) {
    forall i, j | 0 <= i < j < |rows| :: Identify(rows[i]) != Identify(rows[j])
  }

  /** `m` is one of the duplicates collapsed into the row of this base and identity. */
  ghost predicate Duplicate(c: Case, ms: seq<Movement>, base: string, id: Identity, m: Movement) {
    m in ms && InGroup(c, m, base) && Identify(m) == id
  }

  ghost predicate Wanted(c: Case, ms: seq<Movement>, base: string, id: Identity) {
    exists m :: Duplicate(c, ms, base, id, m)
  }

  /** A group of linked values copied whole from one duplicate, and no duplicate has a fuller one. */
  ghost predicate FullestPrimary(c: Case, ms: seq<Movement>, base: string, row: Movement) {
    && (exists m :: Duplicate(c, ms, base, Identify(row), m) && m.primary == row.primary)
    && forall m | Duplicate(c, ms, base, Identify(row), m) :: Score(m.primary) <= Score(row.primary)
  }

  ghost predicate FullestAnexo(c: Case, ms: seq<Movement>, base: string, row: Movement) {
    && (exists m :: Duplicate(c, ms, base, Identify(row), m) && m.anexo == row.anexo)
    && forall m | Duplicate(c, ms, base, Identify(row), m) :: Score(m.anexo) <= Score(row.anexo)
  }

  ghost predicate AllDocuments(c: Case, ms: seq<Movement>, base: string, row: Movement) {
    forall d :: d in DocumentIds(row.documents)
      <==> exists m :: Duplicate(c, ms, base, Identify(row), m) && d in DocumentIds(m.documents)
  }

  lemma {:induction false} DocumentsUnion(ds: seq<Document>, more: seq<Document>)
    ensures DocumentIds(AddDocuments(ds, more)) == DocumentIds(ds) + DocumentIds(more)
  {
    if more == [] {
    } else {
      var init, d := more[..|more| - 1], more[|more| - 1];
      DocumentsUnion(ds, init);
      DocumentsSnoc(init, d);
      assert more == init + [d];
      DocumentsSnoc(AddDocuments(ds, init), d);
    }
  }

  lemma DocumentsSnoc(ds: seq<Document>, d: Document)
    ensures DocumentIds(ds + [d]) == DocumentIds(ds) + {DocumentIdOf(d)}
  {
    var longer := ds + [d];
    assert longer[|ds|] == d;
    assert forall i | 0 <= i < |ds| :: longer[i] == ds[i];
  }

  lemma DuplicatesOfLonger(c: Case, ms: seq<Movement>, base: string, id: Identity, m: Movement)
    requires ms != []
    ensures Duplicate(c, ms, base, id, m) <==>
      Duplicate(c, ms[..|ms| - 1], base, id, m)
      || (m == ms[|ms| - 1] && InGroup(c, m, base) && Identify(m) == id)
  {
    assert ms == ms[..|ms| - 1] + [ms[|ms| - 1]];
  }

  /** Collapsing gives exactly one row per dated (base, identity). */
  lemma {:induction false} OneRowPerIdentity(c: Case, ms: seq<Movement>, base: string)
    ensures var rows := GroupRows(c, ms, base);
      && DistinctIds(rows)
      && (forall row | row in rows :: InGroup(c, row, base))
      && (forall id :: id in IdSet(rows) <==> Wanted(c, ms, base, id))
  {
    if ms != [] {
      var before, m := ms[..|ms| - 1], ms[|ms| - 1];
      var rows, rows' := GroupRows(c, before, base), GroupRows(c, ms, base);
      OneRowPerIdentity(c, before, base);
      forall id
        ensures id in IdSet(rows') <==> Wanted(c, ms, base, id)
      {
        forall x { DuplicatesOfLonger(c, ms, base, id, x); }
        assert Wanted(c, ms, base, id) <==> Wanted(c, before, base, id) || (InGroup(c, m, base) && Identify(m) == id);
        if InGroup(c, m, base) { AddRowIds(rows, m); }
      }
      if InGroup(c, m, base) {
        AddRowIds(rows, m);
        forall j | 0 <= j < |rows'| ensures InGroup(c, rows'[j], base) {
          assert j < |rows| ==> rows[j] in rows;
        }
      }
    }
  }

  lemma AddRowIds(rows: seq<Movement>, m: Movement)
    requires DistinctIds(rows)
    ensures var rows' := AddRow(rows, m);
      && DistinctIds(rows') && IdSet(rows') == IdSet(rows) + {Identify(m)}
  {
    var i := IndexOf(rows, Identify(m));
    var rows' := AddRow(rows, m);
    assert forall j | 0 <= j < |rows| :: Identify(rows'[j]) == Identify(rows[j]);
    if i == |rows| {
      assert rows'[|rows|] == m;
    }
  }

  /** The last movement is merged into the row. */
  lemma MergingLosesNothing(c: Case, ms: seq<Movement>, base: string, old_: Movement)
    requires ms != []
    requires var before := ms[..|ms| - 1];
      FullestPrimary(c, before, base, old_) && FullestAnexo(c, before, base, old_) && AllDocuments(c, before, base, old_)
    requires var m := ms[|ms| - 1]; InGroup(c, m, base) && Identify(m) == Identify(old_)
    ensures var row := Merge(old_, ms[|ms| - 1]);
      FullestPrimary(c, ms, base, row) && FullestAnexo(c, ms, base, row) && AllDocuments(c, ms, base, row)
  {
    var before, m := ms[..|ms| - 1], ms[|ms| - 1];
    var row, id := Merge(old_, m), Identify(old_);
    forall x { DuplicatesOfLonger(c, ms, base, id, x); }
    assert Duplicate(c, ms, base, id, m);
    assert FullestPrimary(c, ms, base, row) by {
      if Score(m.primary) <= Score(old_.primary) {
        var x :| Duplicate(c, before, base, id, x) && x.primary == old_.primary;
        assert Duplicate(c, ms, base, id, x) && x.primary == row.primary;
      }
    }
    assert FullestAnexo(c, ms, base, row) by {
      if Score(m.anexo) <= Score(old_.anexo) {
        var x :| Duplicate(c, before, base, id, x) && x.anexo == old_.anexo;
        assert Duplicate(c, ms, base, id, x) && x.anexo == row.anexo;
      }
    }
    DocumentsUnion(old_.documents, m.documents);
  }

  /** The last movement is the first of its identity. */
  lemma FirstLosesNothing(c: Case, ms: seq<Movement>, base: string)
    requires ms != []
    requires var m := ms[|ms| - 1]; InGroup(c, m, base) && !Wanted(c, ms[..|ms| - 1], base, Identify(m))
    ensures var row := ms[|ms| - 1];
      FullestPrimary(c, ms, base, row) && FullestAnexo(c, ms, base, row) && AllDocuments(c, ms, base, row)
  {
    var m := ms[|ms| - 1];
    var id := Identify(m);
    forall x { DuplicatesOfLonger(c, ms, base, id, x); }
    assert Duplicate(c, ms, base, id, m);
    forall x | x != m ensures !Duplicate(c, ms, base, id, x) {
      if Duplicate(c, ms[..|ms| - 1], base, id, x) { assert false; }
    }
  }

  /** The last movement does not concern the row. */
  lemma OthersLoseNothing(c: Case, ms: seq<Movement>, base: string, row: Movement)
    requires ms != []
    requires var before := ms[..|ms| - 1];
      FullestPrimary(c, before, base, row) && FullestAnexo(c, before, base, row) && AllDocuments(c, before, base, row)
    requires var m := ms[|ms| - 1]; !(InGroup(c, m, base) && Identify(m) == Identify(row))
    ensures FullestPrimary(c, ms, base, row) && FullestAnexo(c, ms, base, row) && AllDocuments(c, ms, base, row)
  {
    forall x ensures Duplicate(c, ms, base, Identify(row), x) <==> Duplicate(c, ms[..|ms| - 1], base, Identify(row), x) {
      DuplicatesOfLonger(c, ms, base, Identify(row), x);
    }
  }

  /** Collapsing loses nothing: documents are united, linked groups come whole from a fullest duplicate. */
  lemma {:induction false} CollapsingLosesNothing(c: Case, ms: seq<Movement>, base: string, row: Movement)
    requires row in GroupRows(c, ms, base)
    ensures FullestPrimary(c, ms, base, row) && FullestAnexo(c, ms, base, row) && AllDocuments(c, ms, base, row)
  {
    var before, m := ms[..|ms| - 1], ms[|ms| - 1];
    var rows := GroupRows(c, before, base);
    var id := Identify(row);
    OneRowPerIdentity(c, before, base);
    if InGroup(c, m, base) && id == Identify(m) {
      var i := IndexOf(rows, id);
      AddRowIds(rows, m);
      if i < |rows| {
        OnlyOne(AddRow(rows, m), i, row);
        CollapsingLosesNothing(c, before, base, rows[i]);
        MergingLosesNothing(c, ms, base, rows[i]);
      } else {
        assert AddRow(rows, m)[|rows|] == m;
        OnlyOne(AddRow(rows, m), |rows|, row);
        FirstLosesNothing(c, ms, base);
      }
    } else {
      assert row in rows;
      CollapsingLosesNothing(c, before, base, row);
      OthersLoseNothing(c, ms, base, row);
    }
  }

  lemma OnlyOne(rows: seq<Movement>, i: nat, row: Movement)
    requires DistinctIds(rows) && i < |rows| && row in rows && Identify(row) == Identify(rows[i])
    ensures row == rows[i]
  {
    var j :| 0 <= j < |rows| && rows[j] == row;
    if j != i {
      assert Identify(rows[j]) == Identify(rows[i]);
    }
  }
}
