/** `_candidate_payloads`: validate, deduplicate by source hash, and cut to an exact byte bound. */
module CandidateBatch {
  import opened Base

  const MAX_CANDIDATES := 1_000
  const MAX_CANDIDATE_BYTES := 4_096
  const MAX_PAYLOAD_BYTES := 1_048_576

  /** One byte a character; a field is its encoded JSON scalar, or null. */
  type Bytes = string

  type Payload = seq<Option<Bytes>>

  datatype Raw = Raw(modelValid: bool, fields: Payload, withinLimits: bool, nested: bool, hash: Bytes)

  datatype Error = InvalidCandidate | InvalidAllowlist | FieldLimit | NestedValue | CandidateTooLarge

  datatype Batch = Batch(payloads: seq<Payload>, totalUnique: nat, truncated: bool)

  // ----- the serialized form

  function Member(name: Bytes, value: Option<Bytes>): Bytes {
    "\"" + name + "\": " + if value.Some? then value.value else "null"
  }

  function Members(names: seq<Bytes>, p: Payload): Bytes
    requires |names| == |p|
  {
    if p == [] then ""
    else if |p| == 1 then Member(names[0], p[0])
    else Member(names[0], p[0]) + ", " + Members(names[1..], p[1..])
  }

  function Object(names: seq<Bytes>, p: Payload): Bytes
    requires |names| == |p|
  {
    "{" + Members(names, p) + "}"
  }

  predicate Shaped(names: seq<Bytes>, ps: seq<Payload>) {
    forall p | p in ps :: |p| == |names|
  }

  function Items(names: seq<Bytes>, ps: seq<Payload>): Bytes
    requires Shaped(names, ps)
  {
    if ps == [] then ""
    else if |ps| == 1 then Object(names, ps[0])
    else Items(names, ps[..|ps| - 1]) + ", " + Object(names, ps[|ps| - 1])
  }

  function Array(names: seq<Bytes>, ps: seq<Payload>): Bytes
    requires Shaped(names, ps)
  {
    "[" + Items(names, ps) + "]"
  }

  /** The text whose bytes are counted: separators with a blank, fields in the order of their names. */
  lemma SerializedAs(n: Bytes, m: Bytes, x: Bytes, y: Bytes, z: Bytes)
    ensures var names, ps := [n, m], [[Some(x), None], [Some(y), Some(z)]];
      var first := "{" + (("\"" + n + "\": " + x) + ", " + ("\"" + m + "\": " + "null")) + "}";
      var second := "{" + (("\"" + n + "\": " + y) + ", " + ("\"" + m + "\": " + z)) + "}";
      Shaped(names, ps) && Array(names, ps) == "[" + (first + ", " + second) + "]"
  {
    var names, ps := [n, m], [[Some(x), None], [Some(y), Some(z)]];
    assert ps[..1] == [ps[0]] && names[1..] == [m] && ps[0][1..] == [None] && ps[1][1..] == [Some(z)];
    assert Members(names, ps[0]) == Member(n, Some(x)) + ", " + Member(m, None);
    assert Members(names, ps[1]) == Member(n, Some(y)) + ", " + Member(m, Some(z));
    assert forall p | p in ps :: |p| == 2;
    assert forall p | p in ps[..1] :: |p| == 2;
    assert Items(names, ps[..1]) == Object(names, ps[0]);
    assert Items(names, ps) == Object(names, ps[0]) + ", " + Object(names, ps[1]);
  }

  lemma ArrayGrows(names: seq<Bytes>, ps: seq<Payload>, p: Payload)
    requires Shaped(names, ps + [p])
    ensures Shaped(names, ps) && |p| == |names|
    ensures |Array(names, ps + [p])| == |Array(names, ps)| + |Object(names, p)| + (if ps == [] then 0 else 2)
  {
    assert p in ps + [p];
    assert forall q | q in ps :: q in ps + [p];
    assert (ps + [p])[..|ps|] == ps;
  }

  lemma PrefixIsShaped(names: seq<Bytes>, ps: seq<Payload>, k: nat)
    requires Shaped(names, ps) && k <= |ps|
    ensures Shaped(names, ps[..k])
  {
    forall q | q in ps[..k] ensures |q| == |names| {
      assert q in ps;
    }
  }

  lemma {:induction false} PrefixIsShorter(names: seq<Bytes>, ps: seq<Payload>, i: nat, j: nat)
    requires Shaped(names, ps) && i <= j <= |ps|
    ensures Shaped(names, ps[..i]) && Shaped(names, ps[..j])
    ensures |Array(names, ps[..i])| <= |Array(names, ps[..j])|
    decreases j
  {
    PrefixIsShaped(names, ps, i);
    PrefixIsShaped(names, ps, j);
    if i < j {
      PrefixIsShorter(names, ps, i, j - 1);
      assert ps[..j] == ps[..j - 1] + [ps[j - 1]];
      ArrayGrows(names, ps[..j - 1], ps[j - 1]);
    }
  }

  // ----- what a row may be, and what the rows mean together

  function Whole(r: Raw): Payload {
    r.fields + [Some(r.hash)]
  }

  /** `names` are the allowed fields and then `source_hash`. */
  function Fault(names: seq<Bytes>, r: Raw): Option<Error> {
    if !r.modelValid then Some(InvalidCandidate)
    else if |r.fields| + 1 != |names| then Some(InvalidAllowlist)
    else if !r.withinLimits then Some(FieldLimit)
    else if r.nested then Some(NestedValue)
    else if |Object(names, Whole(r))| > MAX_CANDIDATE_BYTES then Some(CandidateTooLarge)
    else None
  }

  /** A row that may be stored: nothing nested, no long text, and at most four kilobytes. */
  predicate Storable(names: seq<Bytes>, r: Raw) {
    r.modelValid && |r.fields| + 1 == |names| && r.withinLimits && !r.nested && |Object(names, Whole(r))| <= 4_096
  }

  /** The reason for which a row is refused, the first of several. */
  predicate IsReason(names: seq<Bytes>, r: Raw, error: Error) {
    match error
    case InvalidCandidate => !r.modelValid
    case InvalidAllowlist => r.modelValid && |r.fields| + 1 != |names|
    case FieldLimit => r.modelValid && |r.fields| + 1 == |names| && !r.withinLimits
    case NestedValue => r.modelValid && |r.fields| + 1 == |names| && r.withinLimits && r.nested
    case CandidateTooLarge =>
      r.modelValid && |r.fields| + 1 == |names| && r.withinLimits && !r.nested && |Object(names, Whole(r))| > 4_096
  }

  lemma FaultIff(names: seq<Bytes>, r: Raw)
    ensures Fault(names, r) == None <==> Storable(names, r)
    ensures forall error :: Fault(names, r) == Some(error) <==> IsReason(names, r, error)
  {
  }

  ghost predicate Accepted(names: seq<Bytes>, rows: seq<Raw>) {
    forall r | r in rows :: Fault(names, r) == None
  }

  /** Hashes in order of first occurrence. */
  function Hashes(rows: seq<Raw>): seq<Bytes> {
    if rows == [] then []
    else
      var hs := Hashes(rows[..|rows| - 1]);
      var h := rows[|rows| - 1].hash;
      if h in hs then hs else hs + [h]
  }

  /** The last value of one field that is not null, among the rows of one hash. */
  function LastValue(rows: seq<Raw>, h: Bytes, f: nat): Option<Bytes> {
    if rows == [] then None
    else
      var r := rows[|rows| - 1];
      if r.hash == h && f < |Whole(r)| && Whole(r)[f].Some? then Whole(r)[f]
      else LastValue(rows[..|rows| - 1], h, f)
  }

  function Merged(names: seq<Bytes>, rows: seq<Raw>, h: Bytes): (p: Payload)
    ensures |p| == |names|
  {
    seq(|names|, f requires 0 <= f < |names| => LastValue(rows, h, f))
  }

  function Deduplicated(names: seq<Bytes>, rows: seq<Raw>, hs: seq<Bytes>): (ps: seq<Payload>)
    ensures |ps| == |hs| && Shaped(names, ps)
    ensures forall i | 0 <= i < |hs| :: ps[i] == Merged(names, rows, hs[i])
  {
    seq(|hs|, i requires 0 <= i < |hs| => Merged(names, rows, hs[i]))
  }

  lemma {:induction false} HashesAre(rows: seq<Raw>)
    ensures forall h :: h in Hashes(rows) <==> exists r :: r in rows && r.hash == h
    ensures forall i, j | 0 <= i < j < |Hashes(rows)| :: Hashes(rows)[i] != Hashes(rows)[j]
  {
    if rows != [] {
      HashesAre(rows[..|rows| - 1]);
      assert rows == rows[..|rows| - 1] + [rows[|rows| - 1]];
    }
  }

  /** A fresher non-null value wins; a null never erases an older value; the hash itself never changes. */
  lemma {:induction false} LastValueWins(rows: seq<Raw>, h: Bytes, f: nat, i: nat)
    requires i < |rows| && rows[i].hash == h && f < |Whole(rows[i])| && Whole(rows[i])[f].Some?
    requires forall j | i < j < |rows| && rows[j].hash == h && f < |Whole(rows[j])| :: Whole(rows[j])[f] == None
    ensures LastValue(rows, h, f) == Whole(rows[i])[f]
    decreases |rows|
  {
    if i < |rows| - 1 {
      LastValueWins(rows[..|rows| - 1], h, f, i);
    }
  }

  /** The last field of each payload is the hash it is filed under. */
  lemma {:induction false} HashIsKept(names: seq<Bytes>, rows: seq<Raw>, h: Bytes)
    requires Accepted(names, rows) && h in Hashes(rows)
    ensures names != [] && Merged(names, rows, h)[|names| - 1] == Some(h)
  {
    var n := |rows| - 1;
    assert rows[n] in rows && Fault(names, rows[n]) == None;
    if rows[n].hash != h {
      assert forall r | r in rows[..n] :: r in rows;
      HashIsKept(names, rows[..n], h);
      assert Merged(names, rows[..n], h)[|names| - 1] == LastValue(rows[..n], h, |names| - 1);
    }
  }

  ghost predicate Fits(names: seq<Bytes>, ps: seq<Payload>) {
    Shaped(names, ps) && |ps| <= 1_000 && |Array(names, ps)| <= 1_048_576
  }

  // ----- the loops

  method Index(names: seq<Bytes>, rows: seq<Raw>) returns (r: Result<(seq<Bytes>, map<Bytes, Payload>), Error>)
    ensures r.Err? ==> exists i :: 0 <= i < |rows| && Accepted(names, rows[..i]) && Fault(names, rows[i]) == Some(r.error)
    ensures r.Ok? ==>
      && Accepted(names, rows) && r.value.0 == Hashes(rows)
      && (forall h :: h in r.value.1 <==> h in Hashes(rows))
      && (forall h | h in r.value.1 :: r.value.1[h] == Merged(names, rows, h))
  {
    var order: seq<Bytes>, byHash: map<Bytes, Payload> := [], map[];
    for i := 0 to |rows|
      invariant Accepted(names, rows[..i]) && order == Hashes(rows[..i])
      invariant forall h :: h in byHash <==> h in order
      invariant forall h :: if h in byHash then byHash[h] == Merged(names, rows[..i], h) else AllNull(names, rows[..i], h)
    {
      var row := rows[i];
      var fault := Fault(names, row);
      if fault.Some? {
        return Err(fault.value);
      }
      var p := Whole(row);
      ghost var before := rows[..i];
      assert rows[..i + 1] == before + [row] && rows[..i + 1][..i] == before;
      if row.hash in byHash {
        var existing := byHash[row.hash];
        p := seq(|p|, f requires 0 <= f < |p| && |existing| == |p| => if p[f].Some? then p[f] else existing[f]);
      } else {
        order := order + [row.hash];
      }
      MergeOne(names, before, row, p);
      byHash := byHash[row.hash := p];
    }
    assert rows[..|rows|] == rows;
    return Ok((order, byHash));
  }

  ghost predicate AllNull(names: seq<Bytes>, rows: seq<Raw>, h: Bytes) {
    forall f | 0 <= f < |names| :: LastValue(rows, h, f) == None
  }

  lemma MergeOne(names: seq<Bytes>, before: seq<Raw>, row: Raw, p: Payload)
    requires |Whole(row)| == |names| == |p|
    requires forall f | 0 <= f < |p| :: p[f] == if Whole(row)[f].Some? then Whole(row)[f] else LastValue(before, row.hash, f)
    ensures Merged(names, before + [row], row.hash) == p
    ensures forall h | h != row.hash ::
      && Merged(names, before + [row], h) == Merged(names, before, h)
      && (AllNull(names, before, h) ==> AllNull(names, before + [row], h))
  {
    var after := before + [row];
    assert after[..|before|] == before;
    forall h | h != row.hash
      ensures Merged(names, after, h) == Merged(names, before, h)
              && (AllNull(names, before, h) ==> AllNull(names, after, h))
    {
      assert forall f: nat :: LastValue(after, h, f) == LastValue(before, h, f);
      assert forall f | 0 <= f < |names| :: Merged(names, after, h)[f] == Merged(names, before, h)[f];
    }
  }

  method CandidatePayloads(names: seq<Bytes>, rows: seq<Raw>) returns (r: Result<Batch, Error>)
    ensures r.Err? ==> exists i :: 0 <= i < |rows| && Accepted(names, rows[..i]) && Fault(names, rows[i]) == Some(r.error)
    ensures r.Ok? ==>
      var all := Deduplicated(names, rows, Hashes(rows));
      var k := |r.value.payloads|;
      && Accepted(names, rows)
      && k <= |all| && r.value.payloads == all[..k]
      && Fits(names, all[..k]) && (forall j | 0 <= j <= |all| && Fits(names, all[..j]) :: j <= k)
      && r.value.totalUnique == |all|
      && (r.value.truncated <==> k < |all|)
    ensures r.Ok? <==> forall row | row in rows :: Storable(names, row)
    ensures r.Ok? ==> var ps := r.value.payloads; Shaped(names, ps) && |ps| <= 1_000 && |Array(names, ps)| <= 1_048_576
    ensures r.Err? ==> exists i ::
              && 0 <= i < |rows| && IsReason(names, rows[i], r.error) && (forall j | 0 <= j < i :: Storable(names, rows[j]))
  {
    forall row: Raw ensures Fault(names, row) == None <==> Storable(names, row)
                    ensures forall error :: Fault(names, row) == Some(error) <==> IsReason(names, row, error)
    {
      FaultIff(names, row);
    }
    var indexed := Index(names, rows);
    if indexed.Err? {
      return Err(indexed.error);
    }
    var payloads := Cut(names, indexed.value.0, indexed.value.1, Deduplicated(names, rows, Hashes(rows)));
    return Ok(Batch(payloads, |indexed.value.0|, |indexed.value.0| > |payloads|));
  }

  lemma OneMoreFits(names: seq<Bytes>, all: seq<Payload>, i: nat)
    requires Shaped(names, all) && i < |all|
    ensures Shaped(names, all[..i]) && |all[i]| == |names| && all[..i + 1] == all[..i] + [all[i]]
    ensures Fits(names, all[..i + 1]) <==>
      i < MAX_CANDIDATES && |Array(names, all[..i])| + |Object(names, all[i])| + (if i == 0 then 0 else 2) <= MAX_PAYLOAD_BYTES
    ensures Shaped(names, all[..i + 1])
    ensures |Array(names, all[..i + 1])| == |Array(names, all[..i])| + |Object(names, all[i])| + if i == 0 then 0 else 2
  {
    PrefixIsShaped(names, all, i + 1);
    assert all[..i + 1] == all[..i] + [all[i]];
    ArrayGrows(names, all[..i], all[i]);
  }

  /** The second loop, over the values of the dictionary in insertion order. */
  method Cut(names: seq<Bytes>, order: seq<Bytes>, byHash: map<Bytes, Payload>, ghost all: seq<Payload>)
    returns (payloads: seq<Payload>)
    requires |order| == |all| && Shaped(names, all)
    requires forall i | 0 <= i < |order| :: order[i] in byHash && byHash[order[i]] == all[i]
    ensures var k := |payloads|;
      && k <= |all| && payloads == all[..k] && Fits(names, payloads)
      && forall j | 0 <= j <= |all| && Fits(names, all[..j]) :: j <= k
  {
    payloads := [];
    var encodedSize := 2;
    var i := 0;
    while i < |order|
      invariant i <= |all| && payloads == all[..i]
      invariant Fits(names, payloads) && encodedSize == |Array(names, payloads)|
    {
      if |payloads| >= MAX_CANDIDATES {
        break;
      }
      var payload := byHash[order[i]];
      OneMoreFits(names, all, i);
      var encoded := Object(names, payload);
      var nextSize := encodedSize + |encoded| + (if payloads == [] then 0 else 2);
      if nextSize > MAX_PAYLOAD_BYTES {
        break;
      }
      payloads := payloads + [payload];
      encodedSize := nextSize;
      i := i + 1;
    }
    NothingLongerFits(names, all, i);
  }

  lemma NothingLongerFits(names: seq<Bytes>, all: seq<Payload>, i: nat)
    requires Shaped(names, all) && i <= |all|
    requires i < |all| ==> !Fits(names, all[..i + 1])
    ensures forall j | 0 <= j <= |all| && Fits(names, all[..j]) :: j <= i
  {
    forall j | i < j <= |all| ensures !Fits(names, all[..j]) {
      PrefixIsShorter(names, all, i + 1, j);
    }
  }
}
