/** The age of a slot's bundle (`_slot_bundle_age`, `_anchor_slot_bundle_age`), for arbitrary clocks. */
module BundleAge {
  import opened Base

  function Max(a: real, b: real): real {
    if a >= b then a else b
  }

  datatype Age = Age(savedAt: Option<real>, anchor: Option<real>, atAnchor: Option<real>, floor: real)

  /** One reading of both clocks: the wall clock may jump anywhere. */
  datatype Clocks = Clocks(wall: real, mono: real)

  function WallAge(savedAt: real, wall: real): real {
    Max(0.0, wall - savedAt)
  }

  /** The reported age, and the state after reporting it. */
  function Read(a: Age, t: Clocks): (real, Age) {
    if a.savedAt == None then (0.0, a)
    else
      var wallAge := WallAge(a.savedAt.value, t.wall);
      var b := if a.anchor == None || a.atAnchor == None then a.(anchor := Some(t.mono), atAnchor := Some(wallAge)) else a;
      var age := Max(Max(a.floor, wallAge), b.atAnchor.value + Max(0.0, t.mono - b.anchor.value));
      (age, b.(floor := age))
  }

  /** `t` is read for the prior age, `u` for the new anchor. */
  function Anchor(a: Age, savedAt: real, t: Clocks, u: Clocks): Age {
    var prior := if a.savedAt == Some(savedAt) then Read(a, t).0 else 0.0;
    var anchored := Max(prior, WallAge(savedAt, u.wall));
    Age(Some(savedAt), Some(u.mono), Some(anchored), anchored)
  }

  datatype Use = Report(t: Clocks) | Install(savedAt: real, t: Clocks, u: Clocks)

  function After(a: Age, use: Use): Age {
    match use
    case Report(t) => Read(a, t).1
    case Install(s, t, u) => Anchor(a, s, t, u)
  }

  function AfterAll(a: Age, uses: seq<Use>): Age {
    if uses == [] then a else After(AfterAll(a, uses[..|uses| - 1]), uses[|uses| - 1])
  }

  class Slot {
    var bundleSavedAt: Option<real>
    var anchorMonotonic: Option<real>
    var ageAtAnchor: Option<real>
    var ageFloor: real

    constructor ()
      ensures Now() == Age(None, None, None, 0.0)
    {
      bundleSavedAt, anchorMonotonic, ageAtAnchor, ageFloor := None, None, None, 0.0;
    }

    ghost function Now(): Age
      reads this
    {
      Age(bundleSavedAt, anchorMonotonic, ageAtAnchor, ageFloor)
    }

    method BundleAge(t: Clocks) returns (age: real)
      modifies this
      ensures (age, Now()) == Read(old(Now()), t)
    {
      if bundleSavedAt == None {
        return 0.0;
      }
      var wallAge := WallAge(bundleSavedAt.value, t.wall);
      if anchorMonotonic == None || ageAtAnchor == None {
        anchorMonotonic, ageAtAnchor := Some(t.mono), Some(wallAge);
      }
      var monotonicAge := ageAtAnchor.value + Max(0.0, t.mono - anchorMonotonic.value);
      age := Max(Max(ageFloor, wallAge), monotonicAge);
      ageFloor := age;
    }

    method AnchorBundle(savedAt: real, t: Clocks, u: Clocks)
      modifies this
      ensures Now() == Anchor(old(Now()), savedAt, t, u)
    {
      var priorAge := 0.0;
      if bundleSavedAt == Some(savedAt) {
        priorAge := BundleAge(t);
      }
      var anchored := Max(priorAge, WallAge(savedAt, u.wall));
      bundleSavedAt := Some(savedAt);
      anchorMonotonic, ageAtAnchor, ageFloor := Some(u.mono), Some(anchored), anchored;
    }
  }

  /** No bundle with another `saved_at` is installed in between. */
  predicate SameBundle(a: Age, uses: seq<Use>) {
    a.savedAt.Some? && forall use | use in uses :: use.Install? ==> use.savedAt == a.savedAt.value
  }

  /** Monotonic time that passed between the two clock readings of each re-anchoring. */
  function Gap(uses: seq<Use>): real {
    if uses == [] then 0.0
    else
      var use := uses[|uses| - 1];
      Gap(uses[..|uses| - 1]) + if use.Install? then use.u.mono - use.t.mono else 0.0
  }

  ghost predicate Anchored(a: Age) {
    a.anchor.Some? && a.atAnchor.Some?
  }

  /**
    However the wall clock jumps and however often the bundle is read or anchored again: the age reported next
    is no less than any age known before, and no less than the anchored age plus the monotonic time since the
    anchor, short only of what passed inside the re-anchorings themselves.
  */
  lemma {:induction false} AgeIsKept(a: Age, uses: seq<Use>, t: Clocks)
    requires SameBundle(a, uses)
    ensures var later := AfterAll(a, uses);
      && later.savedAt == a.savedAt && later.floor >= a.floor && Read(later, t).0 >= later.floor
      && (Anchored(a) ==>
            && Anchored(later)
            && later.atAnchor.value - later.anchor.value >= a.atAnchor.value - a.anchor.value - Gap(uses)
            && Read(later, t).0 >= a.atAnchor.value + (t.mono - a.anchor.value) - Gap(uses))
  {
    if uses != [] {
      var before, use := uses[..|uses| - 1], uses[|uses| - 1];
      assert use in uses && forall x | x in before :: x in uses;
      AgeIsKept(a, before, use.t);
    }
  }

  // ----- what passes inside a re-anchoring is lost

  function LastReading(start: real, uses: seq<Use>): real {
    if uses == [] then start
    else if uses[|uses| - 1].Install? then uses[|uses| - 1].u.mono
    else uses[|uses| - 1].t.mono
  }

  /** The monotonic clock is read in order. */
  predicate Ordered(start: real, uses: seq<Use>) {
    uses == [] ||
    var before, use := uses[..|uses| - 1], uses[|uses| - 1];
    Ordered(start, before) && use.t.mono >= LastReading(start, before) && (use.Install? ==> use.u.mono >= use.t.mono)
  }

  /** The same uses at the same monotonic times, with the wall clock standing at `wall`. */
  function Rewalled(uses: seq<Use>, wall: real): (r: seq<Use>)
    ensures |r| == |uses|
  {
    if uses == [] then []
    else
      var use := uses[|uses| - 1];
      Rewalled(uses[..|uses| - 1], wall)
      + [if use.Install? then Install(use.savedAt, Clocks(wall, use.t.mono), Clocks(wall, use.u.mono))
         else Report(Clocks(wall, use.t.mono))]
  }

  /** Equal but for the wall clock. */
  predicate SameTimes(us: seq<Use>, vs: seq<Use>) {
    |us| == |vs| && forall i | 0 <= i < |us| ::
      && us[i].Install? == vs[i].Install? && us[i].t.mono == vs[i].t.mono
      && (us[i].Install? ==> us[i].savedAt == vs[i].savedAt && us[i].u.mono == vs[i].u.mono)
  }

  lemma {:induction false} SameTimesSameGap(us: seq<Use>, vs: seq<Use>)
    requires SameTimes(us, vs)
    ensures Gap(us) == Gap(vs)
  {
    if us != [] {
      SameTimesSameGap(us[..|us| - 1], vs[..|vs| - 1]);
    }
  }

  lemma {:induction false} RewalledIsSame(uses: seq<Use>, wall: real)
    ensures SameTimes(uses, Rewalled(uses, wall))
  {
    if uses != [] {
      RewalledIsSame(uses[..|uses| - 1], wall);
    }
  }

  /** With a wall clock that has not yet reached `saved_at` the loss is exactly the gaps: nothing else, and no less. */
  lemma {:induction false} GapIsLost(a: Age, uses: seq<Use>, t: Clocks, wall: real)
    requires SameBundle(a, uses) && Anchored(a) && a.floor == a.atAnchor.value >= 0.0
    requires Ordered(a.anchor.value, uses) && t.mono >= LastReading(a.anchor.value, uses)
    requires wall <= a.savedAt.value && t.wall == wall
    ensures var later := AfterAll(a, Rewalled(uses, wall));
      && later.savedAt == a.savedAt && Anchored(later)
      && later.atAnchor.value - later.anchor.value == a.atAnchor.value - a.anchor.value - Gap(uses)
      && later.floor == later.atAnchor.value + (LastReading(a.anchor.value, uses) - later.anchor.value)
      && later.floor >= 0.0 && later.anchor.value <= LastReading(a.anchor.value, uses)
      && Read(later, t).0 == a.atAnchor.value + (t.mono - a.anchor.value) - Gap(uses)
  {
    if uses != [] {
      var before, use := uses[..|uses| - 1], uses[|uses| - 1];
      assert use in uses && forall x | x in before :: x in uses;
      GapIsLost(a, before, Clocks(wall, use.t.mono), wall);
      assert Rewalled(uses, wall)[..|uses| - 1] == Rewalled(before, wall);
    }
  }

  /** So the age keeps up with the monotonic clock for every wall clock if and only if no time passes between the two
      clock readings of any re-anchoring. */
  lemma AgeKeepsUpIff(a: Age, uses: seq<Use>, mono: real)
    requires SameBundle(a, uses) && Anchored(a) && a.floor == a.atAnchor.value >= 0.0
    requires Ordered(a.anchor.value, uses) && mono >= LastReading(a.anchor.value, uses)
    ensures Gap(uses) == 0.0 <==>
      forall vs, wall | SameTimes(uses, vs) ::
        Read(AfterAll(a, vs), Clocks(wall, mono)).0 >= a.atAnchor.value + (mono - a.anchor.value)
  {
    GapIsNatural(a.anchor.value, uses);
    forall vs, wall | SameTimes(uses, vs)
      ensures Read(AfterAll(a, vs), Clocks(wall, mono)).0 >= a.atAnchor.value + (mono - a.anchor.value) - Gap(uses)
    {
      SameTimesSameGap(uses, vs);
      assert SameBundle(a, vs) by {
        forall v: Use | v in vs && v.Install? ensures v.savedAt == a.savedAt.value {
          var i :| 0 <= i < |vs| && vs[i] == v;
          assert uses[i] in uses;
        }
      }
      AgeIsKept(a, vs, Clocks(wall, mono));
    }
    var wall := a.savedAt.value;
    RewalledIsSame(uses, wall);
    GapIsLost(a, uses, Clocks(wall, mono), wall);
  }

  lemma {:induction false} GapIsNatural(start: real, uses: seq<Use>)
    requires Ordered(start, uses)
    ensures Gap(uses) >= 0.0
  {
    if uses != [] {
      GapIsNatural(start, uses[..|uses| - 1]);
    }
  }

  /** One re-anchoring is enough: the age reported after it falls short by what passed between its readings. */
  lemma ReanchoringLosesTime(a: Age, t: Clocks, u: Clocks, t': Clocks)
    requires a.savedAt.Some? && Anchored(a) && a.floor == a.atAnchor.value >= 0.0
    requires a.anchor.value <= t.mono < u.mono <= t'.mono
    requires t.wall <= a.savedAt.value && u.wall <= a.savedAt.value && t'.wall <= a.savedAt.value
    ensures Read(Anchor(a, a.savedAt.value, t, u), t').0
         == a.atAnchor.value + (t'.mono - a.anchor.value) - (u.mono - t.mono) < a.atAnchor.value + (t'.mono - a.anchor.value)
  {
  }

  /** Another bundle starts from its own wall-clock age, at least zero, whatever the one before it had reached. */
  lemma AnotherBundleStartsAnew(a: Age, savedAt: real, t: Clocks, u: Clocks)
    requires a.savedAt != Some(savedAt)
    ensures var b := Anchor(a, savedAt, t, u); var age := if u.wall <= savedAt then 0.0 else u.wall - savedAt;
      b == Age(Some(savedAt), Some(u.mono), Some(age), age) && Read(b, u).0 == age
  {
  }

  /** A bundle never anchored is anchored by its first report, at no less than zero. */
  lemma FirstReportAnchors(a: Age, t: Clocks, t': Clocks)
    requires a.savedAt.Some? && a.anchor.None? && a.floor == 0.0 && t.mono <= t'.mono
    ensures var age := if t.wall <= a.savedAt.value then 0.0 else t.wall - a.savedAt.value;
      && Read(a, t) == (age, a.(anchor := Some(t.mono), atAnchor := Some(age), floor := age))
      && Read(Read(a, t).1, t').0 >= age + (t'.mono - t.mono)
  {
  }

  /** Reports of one bundle never decrease. */
  lemma ReportsNeverDecrease(a: Age, t: Clocks, uses: seq<Use>, t': Clocks)
    requires SameBundle(a, uses)
    ensures Read(AfterAll(After(a, Report(t)), uses), t').0 >= Read(a, t).0
  {
    AgeIsKept(After(a, Report(t)), uses, t');
  }

  /** Past the hard limit a bundle stays past it until another one is installed. */
  lemma HardLimitIsSticky(a: Age, limit: real, t: Clocks, uses: seq<Use>, t': Clocks)
    requires SameBundle(a, uses) && Read(a, t).0 >= limit
    ensures Read(AfterAll(After(a, Report(t)), uses), t').0 >= limit
  {
    ReportsNeverDecrease(a, t, uses, t');
  }

  /** A fresh anchor starts from the wall-clock age, so a wall clock set back later cannot make the bundle younger
      than the monotonic clock says. */
  lemma AnchoredAgePlusElapsed(a: Age, savedAt: real, t: Clocks, u: Clocks, t': Clocks)
    ensures var b := Anchor(a, savedAt, t, u);
      Read(b, t').0 >= WallAge(savedAt, u.wall) + (t'.mono - u.mono) && Read(b, t').0 >= WallAge(savedAt, t'.wall)
  {
  }
}
