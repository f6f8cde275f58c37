/** Persisted movement keys as the strings they are: a base, or a base followed by `#` and a number. */
module KeyText {

  predicate IsDigit(c: char) {
    '0' <= c <= '9'
  }

  predicate AllDigits(s: string) {
    forall i | 0 <= i < |s| :: IsDigit(s[i])
  }

  function Decimal(n: nat): (s: string)
    ensures s != [] && AllDigits(s)
  {
    if n < 10 then ['0' + n as char] else Decimal(n / 10) + ['0' + (n % 10) as char]
  }

  function Value(s: string): nat
    requires AllDigits(s)
  {
    if s == [] then 0 else 10 * Value(s[..|s| - 1]) + (s[|s| - 1] as int - '0' as int)
  }

  lemma {:induction false} ValueOfDecimal(n: nat)
    ensures Value(Decimal(n)) == n
  {
    var s := Decimal(n);
    if n < 10 {
      assert s[..0] == [];
    } else {
      ValueOfDecimal(n / 10);
      assert s[..|s| - 1] == Decimal(n / 10);
    }
  }

  function Candidate(base: string, n: nat): string
    requires n >= 1
  {
    if n == 1 then base else base + "#" + Decimal(n)
  }

  lemma CandidateInjective(base: string, m: nat, n: nat)
    requires m >= 1 && n >= 1 && Candidate(base, m) == Candidate(base, n)
    ensures m == n
  {
    if m > 1 && n > 1 {
      assert Candidate(base, m)[|base| + 1..] == Decimal(m);
      assert Candidate(base, n)[|base| + 1..] == Decimal(n);
      ValueOfDecimal(m);
      ValueOfDecimal(n);
    }
  }

  /** `_is_movement_key_for_base`. */
  predicate IsKeyForBase(key: string, base: string) {
    key == base
    || (|key| > |base| + 1 && key[..|base|] == base && key[|base|] == '#' && AllDigits(key[|base| + 1..]))
  }

  lemma CandidateIsKey(base: string, n: nat)
    requires n >= 1
    ensures IsKeyForBase(Candidate(base, n), base)
  {
    if n > 1 {
      var k := Candidate(base, n);
      assert k[..|base|] == base && k[|base| + 1..] == Decimal(n);
    }
  }

  /** How many digits the string ends in. */
  function TrailingDigits(s: string): (k: nat)
    ensures k <= |s| && (forall i | |s| - k <= i < |s| :: IsDigit(s[i]))
    ensures k < |s| ==> !IsDigit(s[|s| - k - 1])
  {
    if s == [] || !IsDigit(s[|s| - 1]) then 0 else TrailingDigits(s[..|s| - 1]) + 1
  }

  predicate HasSuffixNumber(s: string) {
    var k := TrailingDigits(s);
    0 < k < |s| && s[|s| - k - 1] == '#'
  }

  /** `_external_key_rank`: the number is read at the end of the key, whatever the base. */
  function Rank(key: string, base: string): nat {
    if key == base then 0
    else if HasSuffixNumber(key) then Value(key[|key| - TrailingDigits(key)..])
    else 1
  }

  lemma {:induction false} TrailingDigitsAre(s: string, k: nat)
    requires k < |s| && (forall i | |s| - k <= i < |s| :: IsDigit(s[i])) && !IsDigit(s[|s| - k - 1])
    ensures TrailingDigits(s) == k
    decreases k
  {
    if k > 0 {
      TrailingDigitsAre(s[..|s| - 1], k - 1);
    }
  }

  lemma KeyHasSuffixNumber(key: string, base: string)
    requires IsKeyForBase(key, base) && key != base
    ensures HasSuffixNumber(key) && |key| - TrailingDigits(key) == |base| + 1
  {
    var k := |key| - |base| - 1;
    forall i | |key| - k <= i < |key| ensures IsDigit(key[i]) {
      assert key[i] == key[|base| + 1..][i - |base| - 1];
    }
    TrailingDigitsAre(key, k);
  }

  /** Two different bases share a key exactly when one of them is itself a key of the other. */
  lemma FamiliesMeetIff(b1: string, b2: string)
    requires b1 != b2
    ensures (exists key :: IsKeyForBase(key, b1) && IsKeyForBase(key, b2))
            <==> IsKeyForBase(b1, b2) || IsKeyForBase(b2, b1)
  {
    if key :| IsKeyForBase(key, b1) && IsKeyForBase(key, b2) {
      if key != b1 && key != b2 {
        KeyHasSuffixNumber(key, b1);
        KeyHasSuffixNumber(key, b2);
      }
    }
    if IsKeyForBase(b1, b2) {
      assert IsKeyForBase(b1, b1);
    }
    if IsKeyForBase(b2, b1) {
      assert IsKeyForBase(b2, b2);
    }
  }

  /** Different bases have a candidate in common only if one of them is a candidate of the other. */
  lemma CandidatesMeet(b1: string, n1: nat, b2: string, n2: nat)
    requires n1 >= 1 && n2 >= 1 && b1 != b2 && Candidate(b1, n1) == Candidate(b2, n2)
    ensures b1 == Candidate(b2, n2) || b2 == Candidate(b1, n1)
  {
    var key := Candidate(b1, n1);
    CandidateIsKey(b1, n1);
    CandidateIsKey(b2, n2);
    if n1 > 1 && n2 > 1 {
      KeyHasSuffixNumber(key, b1);
      KeyHasSuffixNumber(key, b2);
    }
  }

  // ----- orders

  predicate StringLeq(a: string, b: string) {
    a == [] || (b != [] && (a[0] < b[0] || (a[0] == b[0] && StringLeq(a[1..], b[1..]))))
  }

  lemma {:induction false} StringLeqTotal(a: string, b: string)
    ensures StringLeq(a, b) || StringLeq(b, a)
  {
    if a != [] && b != [] {
      StringLeqTotal(a[1..], b[1..]);
    }
  }

  lemma {:induction false} StringLeqAntisymmetric(a: string, b: string)
    requires StringLeq(a, b) && StringLeq(b, a)
    ensures a == b
  {
    if a != [] {
      StringLeqAntisymmetric(a[1..], b[1..]);
      assert a == [a[0]] + a[1..] && b == [b[0]] + b[1..];
    }
  }

  lemma {:induction false} StringLeqTransitive(a: string, b: string, c: string)
    requires StringLeq(a, b) && StringLeq(b, c)
    ensures StringLeq(a, c)
  {
    if a != [] && a[0] == b[0] && b[0] == c[0] {
      StringLeqTransitive(a[1..], b[1..], c[1..]);
    }
  }

  /** A number first, a string second: the keys of both sorts of the algorithm. */
  datatype SortKey = SortKey(n: nat, s: string)

  predicate Leq(a: SortKey, b: SortKey) {
    a.n < b.n || (a.n == b.n && StringLeq(a.s, b.s))
  }

  lemma LeqTotal(a: SortKey, b: SortKey)
    ensures Leq(a, b) || Leq(b, a)
  {
    StringLeqTotal(a.s, b.s);
  }

  lemma LeqAntisymmetric(a: SortKey, b: SortKey)
    requires Leq(a, b) && Leq(b, a)
    ensures a == b
  {
    StringLeqAntisymmetric(a.s, b.s);
  }

  lemma LeqTransitive(a: SortKey, b: SortKey, c: SortKey)
    requires Leq(a, b) && Leq(b, c)
    ensures Leq(a, c)
  {
    if a.n == b.n == c.n {
      StringLeqTransitive(a.s, b.s, c.s);
    }
  }

  // ----- the unbounded search for a free key

  ghost function Remaining(base: string, taken: set<string>, n: nat): set<string>
    requires n >= 1
  {
    set k | k in taken && exists m: nat {:trigger Candidate(base, m)} :: m >= n && k == Candidate(base, m)
  }

  lemma RemainingShrinks(base: string, taken: set<string>, n: nat)
    requires n >= 1 && Candidate(base, n) in taken
    ensures Remaining(base, taken, n + 1) < Remaining(base, taken, n)
  {
    var k := Candidate(base, n);
    assert k in Remaining(base, taken, n);
    if k in Remaining(base, taken, n + 1) {
      var m: nat :| m >= n + 1 && k == Candidate(base, m);
      CandidateInjective(base, m, n);
    }
  }

  /** The least free suffix from `n` on. */
  function FirstFree(base: string, taken: set<string>, n: nat): (r: nat)
    requires n >= 1
    ensures r >= n && Candidate(base, r) !in taken
    ensures forall m | n <= m < r :: Candidate(base, m) in taken
    decreases Remaining(base, taken, n)
  {
    if Candidate(base, n) !in taken then n
    else
      RemainingShrinks(base, taken, n);
      FirstFree(base, taken, n + 1)
  }

  /** The `while True` of the allocation; it ends for every set of taken keys. */
  method AllocateKey(base: string, reserved: set<string>, used: set<string>) returns (key: string)
    ensures key == Candidate(base, FirstFree(base, reserved + used, 1))
  {
    var suffix := 1;
    while true
      invariant suffix >= 1
      invariant FirstFree(base, reserved + used, suffix) == FirstFree(base, reserved + used, 1)
      decreases Remaining(base, reserved + used, suffix)
    {
      var candidate := if suffix == 1 then base else base + "#" + Decimal(suffix);
      if candidate !in reserved && candidate !in used {
        return candidate;
      }
      RemainingShrinks(base, reserved + used, suffix);
      suffix := suffix + 1;
    }
  }
}
