/** `_prepare_pjud_movements`: collapse scraped rows and give each logical movement its persisted key. */
module MovementKeys {
  import opened Base
  import opened KeyText

  type Identity = seq<string>

  /** Linked metadata values, e.g. url/token/param; a missing value is `None`. */
  type Group = seq<Option<string>>

  datatype Document = Document(url: Option<string>, token: Option<string>, param: Option<string>, rest: string)

  type DocumentId = (Option<string>, Option<string>, Option<string>)

  /** The identity fields after normalisation. */
  datatype Fields = Fields(
    folio: string, fecha: string, cuaderno: string, tramite: string, descripcion: string, etapa: string, foja: string)

  datatype Movement = Movement(
    rawFecha: string, rawCuaderno: string, rawFolio: Option<string>,
    fields: Fields, primary: Group, anexo: Group, documents: seq<Document>)

  /** `aliases` are the historical spellings of the case number, empty outside appeals;
      `digest` stands for SHA-256 over a JSON list. */
  datatype Case = Case(number: string, aliases: seq<string>, digest: Identity -> string)

  datatype Stored = Stored(key: string, payload: Option<Movement>)

  // ----- identity, bases, order

  function Identify(m: Movement): Identity {
    var f := m.fields;
    if m.rawFolio == None then ["", f.fecha, f.cuaderno, f.tramite, f.descripcion]
    else [f.folio, f.fecha, f.cuaderno, f.tramite, f.descripcion, f.etapa, f.foja]
  }

  function FolioKey(number: string, m: Movement): string
    requires m.rawFolio.Some?
  {
    number + ":" + (m.rawCuaderno + ":" + m.rawFolio.value)
  }

  const NULL_FOLIO_PREFIX := "pjud:null-folio:"

  function BaseOf(c: Case, m: Movement): string {
    if m.rawFolio.Some? then FolioKey(c.number, m)
    else NULL_FOLIO_PREFIX + c.digest([m.fields.fecha, m.fields.cuaderno, m.fields.tramite, m.fields.descripcion])
  }

  /** Current base first; a repeated alias changes nothing, since only the first match is used. */
  function BasesOf(c: Case, m: Movement): (bases: seq<string>)
    ensures bases != [] && bases[0] == BaseOf(c, m)
  {
    [BaseOf(c, m)]
    + if m.rawFolio == None then [] else seq(|c.aliases|, i requires 0 <= i < |c.aliases| => FolioKey(c.aliases[i], m))
  }

  function MovementSortKey(c: Case, m: Movement): SortKey {
    SortKey(if m.fields.tramite != "" || m.fields.etapa != "" then 0 else 1, c.digest(Identify(m)))
  }

  function KeyOrder(base: string, key: string): SortKey {
    SortKey(Rank(key, base), key)
  }

  function Insert(c: Case, m: Movement, rows: seq<Movement>): seq<Movement> {
    if rows == [] then [m]
    else if Leq(MovementSortKey(c, m), MovementSortKey(c, rows[0])) then [m] + rows
    else [rows[0]] + Insert(c, m, rows[1..])
  }

  function SortRows(c: Case, rows: seq<Movement>): seq<Movement> {
    if rows == [] then [] else Insert(c, rows[0], SortRows(c, rows[1..]))
  }

  // ----- collapsing duplicates

  function Truthy(v: Option<string>): nat {
    if v.Some? && v.value != "" then 1 else 0
  }

  function Score(g: Group): nat {
    if g == [] then 0 else Truthy(g[0]) + Score(g[1..])
  }

  /** `_prefer_complete_group`. */
  function Prefer(target: Group, source: Group): Group {
    if Score(source) <= Score(target) then target else source
  }

  function DocumentIdOf(d: Document): DocumentId {
    (d.url, d.token, d.param)
  }

  function DocumentIds(ds: seq<Document>): set<DocumentId> {
    set i | 0 <= i < |ds| :: DocumentIdOf(ds[i])
  }

  function AddDocuments(ds: seq<Document>, more: seq<Document>): seq<Document> {
    if more == [] then ds
    else
      var r := AddDocuments(ds, more[..|more| - 1]);
      var d := more[|more| - 1];
      if DocumentIdOf(d) in DocumentIds(r) then r else r + [d]
  }

  function Merge(target: Movement, source: Movement): Movement {
    target.(primary := Prefer(target.primary, source.primary),
            anexo := Prefer(target.anexo, source.anexo),
            documents := AddDocuments(target.documents, source.documents))
  }

  /** The position of an identity in a group, or its length. */
  function IndexOf(rows: seq<Movement>, id: Identity): (i: nat)
    ensures i <= |rows|
    ensures i < |rows| ==> Identify(rows[i]) == id
    ensures forall j | 0 <= j < i :: Identify(rows[j]) != id
  {
    if rows == [] then 0
    else if Identify(rows[0]) == id then 0
    else
      var i := IndexOf(rows[1..], id);
      assert forall j | 1 <= j < i + 1 :: rows[j] == rows[1..][j - 1];
      i + 1
  }

  function AddRow(rows: seq<Movement>, m: Movement): seq<Movement> {
    var i := IndexOf(rows, Identify(m));
    if i < |rows| then rows[i := Merge(rows[i], m)] else rows + [m]
  }

  predicate InGroup(c: Case, m: Movement, base: string) {
    m.rawFecha != "" && BaseOf(c, m) == base
  }

  /** The rows of one base, in order of first occurrence, after all of `ms`. */
  function GroupRows(c: Case, ms: seq<Movement>, base: string): seq<Movement> {
    if ms == [] then []
    else
      var rows := GroupRows(c, ms[..|ms| - 1], base);
      var m := ms[|ms| - 1];
      if InGroup(c, m, base) then AddRow(rows, m) else rows
  }

  /** The bases of the dated rows, in order of first occurrence. */
  function BaseOrder(c: Case, ms: seq<Movement>): seq<string> {
    if ms == [] then []
    else
      var bs := BaseOrder(c, ms[..|ms| - 1]);
      var m := ms[|ms| - 1];
      if m.rawFecha == "" || BaseOf(c, m) in bs then bs else bs + [BaseOf(c, m)]
  }

  // ----- keys stored by earlier syncs

  /** A stored row whose key belongs to one of the bases of its own payload. */
  datatype Recognised = Recognised(base: string, id: Identity, key: string, matching: string)

  function FirstMatch(bases: seq<string>, key: string): Option<string> {
    if bases == [] then None
    else if IsKeyForBase(key, bases[0]) then Some(bases[0])
    else FirstMatch(bases[1..], key)
  }

  function Recognise(c: Case, e: Stored): Option<Recognised> {
    if e.key == "" || e.payload == None then None
    else
      var m := e.payload.value;
      match FirstMatch(BasesOf(c, m), e.key)
      case None => None
      case Some(matching) => Some(Recognised(BaseOf(c, m), Identify(m), e.key, matching))
  }

  predicate StoredFor(c: Case, e: Stored, base: string, id: Identity) {
    var r := Recognise(c, e);
    r.Some? && r.value.base == base && r.value.id == id
  }

  function HistoricalKeys(c: Case, stored: seq<Stored>, base: string, id: Identity): seq<string> {
    if stored == [] then []
    else
      var keys := HistoricalKeys(c, stored[..|stored| - 1], base, id);
      var e := stored[|stored| - 1];
      if StoredFor(c, e, base, id) then keys + [e.key] else keys
  }

  function ReservedKeys(c: Case, stored: seq<Stored>, base: string): set<string> {
    if stored == [] then {}
    else
      var keys := ReservedKeys(c, stored[..|stored| - 1], base);
      var r := Recognise(c, stored[|stored| - 1]);
      if r.Some? && r.value.matching == base then keys + {r.value.key} else keys
  }

  // ----- assignment

  /** The first key, in rank order, that no earlier sibling took. */
  function BestKey(base: string, keys: seq<string>, used: set<string>): Option<string> {
    if keys == [] then None
    else
      var best := BestKey(base, keys[..|keys| - 1], used);
      var key := keys[|keys| - 1];
      if key in used then best
      else if best == None || !Leq(KeyOrder(base, best.value), KeyOrder(base, key)) then Some(key)
      else best
  }

  function AssignKey(c: Case, stored: seq<Stored>, base: string, id: Identity, used: set<string>): string {
    match BestKey(base, HistoricalKeys(c, stored, base, id), used)
    case Some(key) => key
    case None => Candidate(base, FirstFree(base, ReservedKeys(c, stored, base) + used, 1))
  }

  function Elements(keys: seq<string>): set<string> {
    set i | 0 <= i < |keys| :: keys[i]
  }

  /** The keys given, in order, to the sorted rows of one base. */
  function AssignKeys(c: Case, stored: seq<Stored>, base: string, rows: seq<Movement>): (keys: seq<string>)
    ensures |keys| == |rows|
  {
    if rows == [] then []
    else
      var keys := AssignKeys(c, stored, base, rows[..|rows| - 1]);
      keys + [AssignKey(c, stored, base, Identify(rows[|rows| - 1]), Elements(keys))]
  }

  function Sorted(c: Case, ms: seq<Movement>, base: string): seq<Movement> {
    SortRows(c, GroupRows(c, ms, base))
  }

  function Keys(c: Case, ms: seq<Movement>, stored: seq<Stored>, base: string): (keys: seq<string>)
    ensures |keys| == |Sorted(c, ms, base)|
  {
    AssignKeys(c, stored, base, Sorted(c, ms, base))
  }

  function Pair(rows: seq<Movement>, keys: seq<string>): seq<(Movement, string)>
    requires |rows| == |keys|
  {
    if rows == [] then [] else Pair(rows[..|rows| - 1], keys[..|keys| - 1]) + [(rows[|rows| - 1], keys[|keys| - 1])]
  }

  function PrepareBases(c: Case, ms: seq<Movement>, stored: seq<Stored>, bases: seq<string>): seq<(Movement, string)> {
    if bases == [] then []
    else
      var b := bases[|bases| - 1];
      PrepareBases(c, ms, stored, bases[..|bases| - 1]) + Pair(Sorted(c, ms, b), Keys(c, ms, stored, b))
  }

  /** The whole result. */
  function Prepared(c: Case, ms: seq<Movement>, stored: seq<Stored>): seq<(Movement, string)> {
    PrepareBases(c, ms, stored, BaseOrder(c, ms))
  }

  // ----- the loops

  method MergeDocuments(target: seq<Document>, source: seq<Document>) returns (additional: seq<Document>)
    ensures additional == AddDocuments(target, source)
  {
    additional := target;
    var seen := DocumentIds(target);
    for i := 0 to |source|
      invariant additional == AddDocuments(target, source[..i]) && seen == DocumentIds(additional)
    {
      assert source[..i + 1][..i] == source[..i];
      var id := DocumentIdOf(source[i]);
      if id !in seen {
        ghost var longer := additional + [source[i]];
        assert DocumentIds(longer) == seen + {id} by {
          assert longer[|additional|] == source[i];
          assert forall j | 0 <= j < |additional| :: longer[j] == additional[j];
        }
        additional := additional + [source[i]];
        seen := seen + {id};
      }
    }
    assert source[..|source|] == source;
  }

  /** The first loop: a dict of groups, each a dict by identity, both in insertion order. */
  method Collapse(c: Case, ms: seq<Movement>) returns (order: seq<string>, groups: map<string, seq<Movement>>)
    ensures order == BaseOrder(c, ms)
    ensures forall b :: (b in groups <==> b in order) && (b in groups ==> groups[b] == GroupRows(c, ms, b))
  {
    order, groups := [], map[];
    for i := 0 to |ms|
      invariant order == BaseOrder(c, ms[..i])
      invariant forall b :: b in groups <==> b in order
      invariant forall b :: GroupRows(c, ms[..i], b) == if b in groups then groups[b] else []
    {
      assert ms[..i + 1][..i] == ms[..i];
      var m := ms[i];
      if m.rawFecha != "" {
        var base := BaseOf(c, m);
        var group := if base in groups then groups[base] else [];
        var at := IndexOf(group, Identify(m));
        if at < |group| {
          var documents := MergeDocuments(group[at].documents, m.documents);
          var merged := group[at].(primary := Prefer(group[at].primary, m.primary),
                                   anexo := Prefer(group[at].anexo, m.anexo), documents := documents);
          group := group[at := merged];
        } else {
          group := group + [m];
        }
        if base !in groups {
          order := order + [base];
        }
        groups := groups[base := group];
      }
    }
    assert ms[..|ms|] == ms;
  }

  /** The second loop: what is already stored, by identity and by base. */
  method Index(c: Case, stored: seq<Stored>)
    returns (existing: map<(string, Identity), seq<string>>, reserved: map<string, set<string>>)
    ensures forall b, id :: HistoricalKeys(c, stored, b, id) == if (b, id) in existing then existing[(b, id)] else []
    ensures forall b :: ReservedKeys(c, stored, b) == if b in reserved then reserved[b] else {}
  {
    existing, reserved := map[], map[];
    for i := 0 to |stored|
      invariant forall b, id :: HistoricalKeys(c, stored[..i], b, id) == if (b, id) in existing then existing[(b, id)] else []
      invariant forall b :: ReservedKeys(c, stored[..i], b) == if b in reserved then reserved[b] else {}
    {
      assert stored[..i + 1][..i] == stored[..i];
      var recognised := Recognise(c, stored[i]);
      if recognised.Some? {
        var r := recognised.value;
        var slot := (r.base, r.id);
        existing := existing[slot := (if slot in existing then existing[slot] else []) + [r.key]];
        reserved := reserved[r.matching := (if r.matching in reserved then reserved[r.matching] else {}) + {r.key}];
      }
    }
    assert stored[..|stored|] == stored;
  }

  /** The inner loop over the sorted rows of one base. */
  method AssignGroup(c: Case, stored: seq<Stored>, base: string, rows: seq<Movement>,
                     existing: map<(string, Identity), seq<string>>, reserved: set<string>)
    returns (prepared: seq<(Movement, string)>)
    requires forall id :: HistoricalKeys(c, stored, base, id) == if (base, id) in existing then existing[(base, id)] else []
    requires reserved == ReservedKeys(c, stored, base)
    ensures prepared == Pair(rows, AssignKeys(c, stored, base, rows))
  {
    prepared := [];
    var keys: seq<string>, used: set<string> := [], {};
    for i := 0 to |rows|
      invariant keys == AssignKeys(c, stored, base, rows[..i]) && used == Elements(keys)
      invariant prepared == Pair(rows[..i], keys)
    {
      var id := Identify(rows[i]);
      var best := BestKey(base, if (base, id) in existing then existing[(base, id)] else [], used);
      var key;
      if best.Some? {
        key := best.value;
      } else {
        key := AllocateKey(base, reserved, used);
      }
      assert key == AssignKey(c, stored, base, id, used);
      OneMore(c, stored, base, rows, i, keys, key);
      used := used + {key};
      keys := keys + [key];
      prepared := prepared + [(rows[i], key)];
    }
    assert rows[..|rows|] == rows;
  }

  lemma OneMore(c: Case, stored: seq<Stored>, base: string, rows: seq<Movement>, i: nat, keys: seq<string>, key: string)
    requires i < |rows| && keys == AssignKeys(c, stored, base, rows[..i])
    requires key == AssignKey(c, stored, base, Identify(rows[i]), Elements(keys))
    ensures keys + [key] == AssignKeys(c, stored, base, rows[..i + 1])
    ensures Pair(rows[..i + 1], keys + [key]) == Pair(rows[..i], keys) + [(rows[i], key)]
    ensures Elements(keys + [key]) == Elements(keys) + {key}
  {
    assert rows[..i + 1][..i] == rows[..i];
    assert (keys + [key])[..|keys|] == keys;
    ElementsSnoc(keys, key);
  }

  lemma OneMoreBase(c: Case, ms: seq<Movement>, stored: seq<Stored>, bases: seq<string>, b: nat)
    requires b < |bases|
    ensures PrepareBases(c, ms, stored, bases[..b + 1])
         == PrepareBases(c, ms, stored, bases[..b]) + Pair(Sorted(c, ms, bases[b]), Keys(c, ms, stored, bases[b]))
  {
    assert bases[..b + 1][..b] == bases[..b];
  }

  method PrepareMovements(c: Case, ms: seq<Movement>, stored: seq<Stored>) returns (prepared: seq<(Movement, string)>)
    ensures prepared == Prepared(c, ms, stored)
  {
    var order, groups := Collapse(c, ms);
    var existing, reserved := Index(c, stored);
    prepared := [];
    for b := 0 to |order|
      invariant prepared == PrepareBases(c, ms, stored, order[..b])
    {
      var base := order[b];
      OneMoreBase(c, ms, stored, order, b);
      var reservedHere := if base in reserved then reserved[base] else {};
      var group := AssignGroup(c, stored, base, SortRows(c, groups[base]), existing, reservedHere);
      prepared := prepared + group;
    }
    assert order[..|order|] == order;
  }

  lemma ElementsSnoc(keys: seq<string>, key: string)
    ensures Elements(keys + [key]) == Elements(keys) + {key}
  {
    var longer := keys + [key];
    assert longer[|keys|] == key;
    assert forall i | 0 <= i < |keys| :: longer[i] == keys[i];
  }
}
