/** The cookie store: one file holding the bundles of all slots, rewritten as a whole under one lock. */
module CookieStore {
  import opened Base
  import opened SlotLifecycle

  /** An entry whose fields do not parse is garbage; one dated too far ahead is unreadable for the time being. */
  datatype Entry = Garbage | Stored(bundle: Bundle)

  /** No file, or one that does not parse, reads as an empty map. */
  type File = Option<map<nat, Entry>>

  const MAX_FUTURE := 60.0

  datatype Write = Done | LockTimeout | WriteFails

  function Raw(file: File): map<nat, Entry> {
    if file == None then map[] else file.value
  }

  predicate Readable(e: Entry, now: real) {
    e.Stored? && e.bundle.savedAt <= now + MAX_FUTURE
  }

  function View(file: File, now: real): map<nat, Bundle> {
    map k | k in Raw(file) && Readable(Raw(file)[k], now) :: Raw(file)[k].bundle
  }

  function Kept(view: map<nat, Bundle>): map<nat, Entry> {
    map k | k in view :: Stored(view[k])
  }

  predicate IsCurrent(file: File, i: nat, savedAt: real, token: Option<Token>, now: real) {
    i in View(file, now) && View(file, now)[i].savedAt == savedAt && View(file, now)[i].token == token
  }

  class CookieStore {
    var file: File

    /** One entry after the other; unreadable ones are passed over. */
    method LoadAll(now: real) returns (r: map<nat, Bundle>)
      ensures r == View(file, now)
    {
      r := map[];
      var raw := Raw(file);
      var todo := raw.Keys;
      while todo != {}
        invariant todo <= raw.Keys
        invariant forall k :: k in r <==> k in raw && k !in todo && Readable(raw[k], now)
        invariant forall k | k in r :: r[k] == raw[k].bundle
        decreases |todo|
      {
        var k :| k in todo;
        if Readable(raw[k], now) {
          r := r[k := raw[k].bundle];
        }
        todo := todo - {k};
      }
    }

    /** The file is rebuilt from what can be read now. */
    method SaveSlot(i: nat, bundle: Bundle, now: real, write: Write) returns (done: bool)
      modifies this
      ensures done == (write == Done)
      ensures !done ==> file == old(file)
      ensures done ==> file == Some(Kept(View(old(file), now))[i := Stored(bundle)])
    {
      if write == LockTimeout {
        return false;
      }
      var existing := LoadAll(now);
      var slots := Kept(existing);
      slots := slots[i := Stored(bundle)];
      if write == WriteFails {
        return false;
      }
      file := Some(slots);
      done := true;
    }

    method ReplaceSlotCookiesIfCurrent(i: nat, savedAt: real, token: Option<Token>, cookies: nat, now: real, write: Write)
        returns (r: Result<bool, Write>)
      modifies this
      ensures r == Ok(true) ==> IsCurrent(old(file), i, savedAt, token, now)
      ensures r == Ok(true) ==> file == Some(Raw(old(file))[i := Stored(View(old(file), now)[i].(cookies := cookies))])
      ensures r != Ok(true) ==> file == old(file)
      ensures write == Done ==> r == Ok(ReplaceIfCurrent(EntryAt(old(file), i, now), savedAt, token, cookies).1)
      ensures r.Err? ==> r.error == write && write != Done
    {
      if write == LockTimeout {
        return Err(LockTimeout);
      }
      var slots := Raw(file);
      if i !in slots || !Readable(slots[i], now) {
        return Ok(false);
      }
      var current := slots[i].bundle;
      if current.savedAt != savedAt || current.token != token {
        return Ok(false);
      }
      slots := slots[i := Stored(current.(cookies := cookies))];
      if write == WriteFails {
        return Err(WriteFails);
      }
      file := Some(slots);
      r := Ok(true);
    }
  }

  function EntryAt(file: File, i: nat, now: real): Option<Bundle> {
    if i in View(file, now) then Some(View(file, now)[i]) else None
  }

  /** The file after a save. */
  function Saved(file: File, i: nat, bundle: Bundle, now: real): File {
    Some(Kept(View(file, now))[i := Stored(bundle)])
  }

  /** Saving one slot leaves every bundle readable now readable ever after, and erases every other entry for good. */
  lemma SaveKeepsExactlyTheReadable(file: File, i: nat, bundle: Bundle, now: real, later: real, k: nat)
    requires k != i && now <= later
    ensures EntryAt(Saved(file, i, bundle, now), k, later) == EntryAt(file, k, now)
  {
    var saved := Saved(file, i, bundle, now);
    assert Raw(saved) == Kept(View(file, now))[i := Stored(bundle)];
    if k in View(file, now) {
      assert Raw(saved)[k] == Stored(View(file, now)[k]);
    }
  }

  lemma SavedIsRead(file: File, i: nat, bundle: Bundle, now: real, later: real)
    ensures EntryAt(Saved(file, i, bundle, now), i, later) == (if bundle.savedAt <= later + 60.0 then Some(bundle) else None)
  {
    assert Raw(Saved(file, i, bundle, now))[i] == Stored(bundle);
  }

  /** What the pool takes a save and a compare-and-set to be, on the bundles readable at that moment. */
  lemma StoreRefinesMap(file: File, i: nat, bundle: Bundle, now: real)
    requires bundle.savedAt <= now + MAX_FUTURE
    ensures View(Saved(file, i, bundle, now), now) == View(file, now)[i := bundle]
    ensures i in View(file, now) && View(file, now)[i].savedAt == bundle.savedAt
            ==> View(Some(Raw(file)[i := Stored(bundle)]), now) == View(file, now)[i := bundle]
  {
    var saved := Saved(file, i, bundle, now);
    assert Raw(saved) == Kept(View(file, now))[i := Stored(bundle)];
    assert View(saved, now).Keys == View(file, now)[i := bundle].Keys;
    forall k | k in View(saved, now) ensures View(saved, now)[k] == View(file, now)[i := bundle][k] {
      if k != i {
        assert Raw(saved)[k] == Stored(View(file, now)[k]);
      }
    }
    var replaced := Some(Raw(file)[i := Stored(bundle)]);
    assert Raw(replaced) == Raw(file)[i := Stored(bundle)];
    assert View(replaced, now).Keys == View(file, now)[i := bundle].Keys;
  }
}
