/** Juries: selection from a published seed, and its later re-computation. */
module JurySelection {
  import opened Wrappers
  import opened JuryShuffle

  // ---------------------------------------------------------------- the seed as text

  function Digit(d: nat): char
    requires d < 10
  {
    '0' + d as char
  }

  /** Decimal rendering of an unsigned number. */
  function Decimal(n: nat): (s: string)
    ensures s != [] && forall k :: 0 <= k < |s| ==> '0' <= s[k] <= '9'
  {
    if n < 10 then [Digit(n)] else Decimal(n / 10) + [Digit(n % 10)]
  }

  function ParseDigits(s: string): Option<nat> {
    if s == [] then Some(0)
    else
      var c, rest := s[|s| - 1], ParseDigits(s[..|s| - 1]);
      if '0' <= c <= '9' && rest.Some? then Some(rest.value * 10 + (c as int - '0' as int)) else None
  }

  /** `BigInt(text)` on decimal text; `None` is the SyntaxError. */
  function ParseBigInt(s: string): Option<int> {
    if s != [] && (s[0] == '-' || s[0] == '+') then
      var digits := ParseDigits(s[1..]);
      if s[1..] == [] || digits.None? then None
      else
        var value: int := digits.value;
        Some(if s[0] == '-' then -value else value)
    else
      var digits := ParseDigits(s);
      if digits.None? then None else Some(digits.value)
  }

  /** `seedStr.replace('.', '')` drops the first point only. */
  function DropPoint(s: string): string {
    if s == [] then [] else if s[0] == '.' then s[1..] else [s[0]] + DropPoint(s[1..])
  }

  function ParseSeed(s: string): Option<int> { ParseBigInt(DropPoint(s)) }

  lemma {:induction false} DecimalParsesBack(n: nat)
    ensures ParseDigits(Decimal(n)) == Some(n)
  {
    if n >= 10 {
      DecimalParsesBack(n / 10);
      assert Decimal(n)[..|Decimal(n)| - 1] == Decimal(n / 10);
    }
  }

  lemma {:induction false} NoPointNothingDropped(s: string)
    requires '.' !in s
    ensures DropPoint(s) == s
  {
    if s != [] { NoPointNothingDropped(s[1..]); }
  }

  lemma SeedSurvivesText(n: nat)
    ensures ParseSeed(Decimal(n)) == Some(n)
  {
    DecimalParsesBack(n);
    NoPointNothingDropped(Decimal(n));
  }

  // ---------------------------------------------------------------- selection

  datatype Selection<T> = Selected(jury: seq<T>, vrfSeed: string) | Rejected

  /** `jurySize` is checked against the pool; the beacon's number seeds the shuffle. */
  function SelectJury<T>(pool: seq<T>, jurySize: int, beacon: nat): Selection<T> {
    if jurySize > |pool| || jurySize <= 0 then Rejected
    else
      var seed := ParseSeed(Decimal(beacon));
      if seed.None? then Rejected
      else Selected(SliceFromStart(Shuffled(pool, seed.value), jurySize), Decimal(beacon))
  }

  /** `slice(0, n)`: a negative `n` counts from the end, and nothing is out of range. */
  function SliceFromStart<T>(s: seq<T>, n: int): seq<T> {
    if n >= 0 then s[..if n <= |s| then n else |s|]
    else s[..if |s| + n >= 0 then |s| + n else 0]
  }

  /** No check on the size here; a malformed seed throws. */
  function VerifyJury<T>(pool: seq<T>, jurySize: int, vrfSeed: string): Option<seq<T>> {
    var seed := ParseSeed(vrfSeed);
    if seed.None? then None else Some(SliceFromStart(Shuffled(pool, seed.value), jurySize))
  }

  lemma ShuffledPermutes<T>(pool: seq<T>, seed: int)
    ensures multiset(Shuffled(pool, seed)) == multiset(pool) && |Shuffled(pool, seed)| == |pool|
  {
    ArrangePermutes(pool, Drawn(seed, |pool|), if |pool| == 0 then 0 else |pool| - 1);
  }

  /** A jury is selected exactly for sizes 1 to the pool's, and consists of that many different candidates. */
  lemma JuryIsDistinct<T>(pool: seq<T>, jurySize: int, beacon: nat)
    requires Distinct(pool)
    ensures var r := SelectJury(pool, jurySize, beacon);
            && (r.Selected? <==> 1 <= jurySize <= |pool|)
            && (r.Selected? ==>
                  && |r.jury| == jurySize && Distinct(r.jury)
                  && forall k :: 0 <= k < |r.jury| ==> r.jury[k] in pool)
  {
    SeedSurvivesText(beacon);
    var all := Shuffled(pool, beacon);
    ShuffledPermutes(pool, beacon);
    DistinctOfMultiset(pool, all);
    forall k | 0 <= k < |all|
      ensures all[k] in pool
    {
      assert all[k] in multiset(all);
    }
  }

  /** The jury is the beginning of the pool as the beacon's number shuffles it. */
  lemma JuryBeginsTheShuffle<T>(pool: seq<T>, jurySize: int, beacon: nat)
    requires 1 <= jurySize <= |pool|
    ensures |Shuffled(pool, beacon)| == |pool|
    ensures SelectJury(pool, jurySize, beacon) == Selected(Shuffled(pool, beacon)[..jurySize], Decimal(beacon))
  {
    SeedSurvivesText(beacon);
    ShuffledPermutes(pool, beacon);
  }

  /**
   * Verification shuffles by the number the seed's text denotes, if it denotes one,
   * and takes as many from the beginning as there are, or for a negative size all
   * but that many.
   */
  lemma VerificationSlices<T>(pool: seq<T>, jurySize: int, vrfSeed: string)
    ensures VerifyJury(pool, jurySize, vrfSeed).Some? <==> ParseSeed(vrfSeed).Some?
    ensures ParseSeed(vrfSeed).Some? ==>
              var (all, n) := (Shuffled(pool, ParseSeed(vrfSeed).value), |pool|);
              && |all| == n
              && VerifyJury(pool, jurySize, vrfSeed)
                 == Some(if jurySize >= n then all else if jurySize >= 0 then all[..jurySize]
                         else if n + jurySize >= 0 then all[..n + jurySize] else [])
  {
    if ParseSeed(vrfSeed).Some? {
      var all := Shuffled(pool, ParseSeed(vrfSeed).value);
      ShuffledPermutes(pool, ParseSeed(vrfSeed).value);
      assert all[..|all|] == all;
    }
  }

  /** Of the points in a seed's text the first is dropped; text that is not a number then is no seed. */
  lemma SeedPoints(a: string, b: string)
    requires '.' !in a
    ensures ParseSeed(a + "." + b) == ParseBigInt(a + b)
    ensures ParseDigits(b).Some? <==> forall k :: 0 <= k < |b| ==> '0' <= b[k] <= '9'
  {
    DropsFirstPoint(a, b);
    DigitsParse(b);
  }

  /** A sign in front is read as one. */
  lemma SeedSigns(n: nat)
    ensures ParseSeed("-" + Decimal(n)) == Some(0 - n) && ParseSeed("+" + Decimal(n)) == Some(n)
  {
    DecimalParsesBack(n);
    var digits := Decimal(n);
    NoPointNothingDropped("-" + digits);
    NoPointNothingDropped("+" + digits);
    hide Decimal, ParseDigits, DropPoint;
    assert ("-" + digits)[1..] == digits && ("+" + digits)[1..] == digits;
  }

  lemma {:induction false} DropsFirstPoint(a: string, b: string)
    requires '.' !in a
    ensures DropPoint(a + "." + b) == a + b
  {
    if a == [] {
      assert (a + "." + b)[1..] == b && a + b == b;
    } else {
      DropsFirstPoint(a[1..], b);
      assert (a + "." + b)[1..] == a[1..] + "." + b;
      assert [a[0]] + (a[1..] + b) == a + b;
    }
  }

  lemma {:induction false} DigitsParse(s: string)
    ensures ParseDigits(s).Some? <==> forall k :: 0 <= k < |s| ==> '0' <= s[k] <= '9'
  {
    if s != [] { DigitsParse(s[..|s| - 1]); }
  }

  /** A smaller jury from the same seed is the beginning of a larger one. */
  lemma SmallerJuryIsPrefix<T>(pool: seq<T>, small: int, large: int, beacon: nat)
    requires 1 <= small <= large <= |pool|
    ensures SelectJury(pool, small, beacon).Selected? && SelectJury(pool, large, beacon).Selected?
    ensures SelectJury(pool, small, beacon).jury <= SelectJury(pool, large, beacon).jury
  {
    SeedSurvivesText(beacon);
    ShuffledPermutes(pool, beacon);
  }

  /** Verifying with the published seed reproduces the jury. */
  lemma VerificationReproduces<T>(pool: seq<T>, jurySize: int, beacon: nat)
    ensures var r := SelectJury(pool, jurySize, beacon);
            r.Selected? ==> r.vrfSeed == Decimal(beacon) && VerifyJury(pool, jurySize, r.vrfSeed) == Some(r.jury)
    ensures VerifyJury(pool, jurySize, Decimal(beacon)).Some?
  {
    SeedSurvivesText(beacon);
  }
}

/** Which orders the generator can reach at all. */
module JuryCoverage {
  import opened Wrappers
  import opened JuryShuffle
  import Lcg

  function Factorial(n: nat): (f: nat)
    ensures f >= 1
  {
    if n == 0 then 1 else n * Factorial(n - 1)
  }

  /** All choice vectors for `n` candidates. */
  ghost function Vectors(n: nat): set<seq<nat>> {
    if n == 0 then {[]}
    else set v, x | v in Vectors(n - 1) && 0 <= x < n :: v + [x]
  }

  lemma {:induction false} VectorsAreChoices(n: nat, v: seq<nat>)
    ensures v in Vectors(n) <==> Choices(v, n)
  {
    if n > 0 {
      if v in Vectors(n) {
        var w, x :| w in Vectors(n - 1) && 0 <= x < n && v == w + [x];
        VectorsAreChoices(n - 1, w);
      }
      if Choices(v, n) {
        VectorsAreChoices(n - 1, v[..n - 1]);
        assert v == v[..n - 1] + [v[n - 1]];
      }
    }
  }

  ghost function Extensions(vs: set<seq<nat>>, n: nat): (e: set<seq<nat>>)
    ensures forall u :: u in e ==> |u| > 0 && u[|u| - 1] < n
  {
    set v, x | v in vs && 0 <= x < n :: v + [x]
  }

  ghost function LastIs(vs: set<seq<nat>>, x: nat): (e: set<seq<nat>>)
    ensures forall u :: u in e ==> |u| > 0 && u[|u| - 1] == x
  {
    set v | v in vs :: v + [x]
  }

  lemma AppendIsInjective(v: seq<nat>, w: seq<nat>, x: nat)
    ensures v + [x] == w + [x] ==> v == w
  {
    if v + [x] == w + [x] { assert v == (v + [x])[..|v|] && w == (w + [x])[..|w|]; }
  }

  lemma {:induction false} LastIsSize(vs: set<seq<nat>>, x: nat)
    ensures |LastIs(vs, x)| == |vs|
    decreases |vs|
  {
    if vs != {} {
      var v :| v in vs;
      LastIsSize(vs - {v}, x);
      assert LastIs(vs, x) == LastIs(vs - {v}, x) + {v + [x]};
      forall w | w in vs - {v}
        ensures w + [x] != v + [x]
      {
        AppendIsInjective(v, w, x);
      }
    }
  }

  lemma NoExtensions(vs: set<seq<nat>>)
    ensures Extensions(vs, 0) == {}
  {
  }

  lemma {:induction false} ExtensionsSize(vs: set<seq<nat>>, n: nat)
    ensures |Extensions(vs, n)| == n * |vs|
  {
    hide Extensions, LastIs;
    if n == 0 {
      NoExtensions(vs);
    } else {
      ExtensionsSize(vs, n - 1);
      LastIsSize(vs, n - 1);
      OneMoreExtension(vs, n);
      UnionSize(Extensions(vs, n - 1), LastIs(vs, n - 1), n - 1, |vs|);
    }
  }

  lemma UnionSize(a: set<seq<nat>>, b: set<seq<nat>>, k: nat, m: nat)
    requires a !! b && |a| == k * m && |b| == m
    ensures |a + b| == (k + 1) * m
  {
  }

  lemma OneMoreExtension(vs: set<seq<nat>>, n: nat)
    requires n > 0
    ensures Extensions(vs, n) == Extensions(vs, n - 1) + LastIs(vs, n - 1)
    ensures Extensions(vs, n - 1) !! LastIs(vs, n - 1)
  {
  }

  lemma {:induction false} VectorsSize(n: nat)
    ensures |Vectors(n)| == Factorial(n)
  {
    if n > 0 {
      VectorsSize(n - 1);
      ExtensionsSize(Vectors(n - 1), n);
      assert Vectors(n) == Extensions(Vectors(n - 1), n);
    }
  }

  // ---------------------------------------------------------------- parity

  lemma AddEven(k: int, y: int)
    ensures (2 * k + y) % 2 == y % 2
  {
    assert 2 * k + y == 2 * (k + y / 2) + y % 2;
  }

  lemma MaskKeepsParity(x: int)
    ensures (x % Lcg.TWO32) % 2 == x % 2
  {
    var q := x / Lcg.TWO32;
    AddEven(0x8000_0000 * q, x % Lcg.TWO32);
    assert x == 2 * (0x8000_0000 * q) + x % Lcg.TWO32;
  }

  lemma StepFlipsParity(seed: int)
    requires Lcg.SeedRange(seed)
    ensures Lcg.Step(seed) % 2 == (seed + 1) % 2
  {
    Lcg.StepIsExact(seed);
    hide Lcg.Step, Lcg.ToInt32;
    var x := seed * Lcg.A + Lcg.C;
    assert x == 2 * (seed * 832262 + 506952111) + (seed + 1);
    AddEven(seed * 832262 + 506952111, seed + 1);
    MaskKeepsParity(x);
    MaskKeepsParity(Lcg.Step(seed));
  }

  lemma NextParity(x: int, y: int)
    requires x % 2 == y % 2
    ensures (x + 1) % 2 == (y + 1) % 2
  {
  }

  lemma {:induction false} StateParity(n: int, k: nat)
    ensures Lcg.State(n, k) % 2 == (Lcg.InitialSeed(n) + k) % 2
  {
    hide Lcg.Step, Lcg.State, Lcg.InitialSeed, Lcg.ToInt32, Lcg.Documented;
    if k == 0 {
      Lcg.NextState(n, 0);
    } else {
      StateParity(n, k - 1);
      Lcg.NextState(n, k - 1);
      StateInRange(n, k - 1);
      StepFlipsParity(Lcg.State(n, k - 1));
      NextParity(Lcg.State(n, k - 1), Lcg.InitialSeed(n) + (k - 1));
    }
  }

  lemma StateInRange(n: int, k: nat)
    ensures Lcg.SeedRange(Lcg.State(n, k))
  {
    Lcg.GeneratorIsExact(n, k);
  }

  lemma EvenModulus(x: nat, m: nat)
    requires m > 0
    ensures (x % (2 * m)) % 2 == x % 2
  {
    assert x == 2 * (m * (x / (2 * m))) + x % (2 * m);
  }

  /** At an odd position the remainder is taken by an even number, so the parity of the state comes through. */
  lemma IndexParity(seed: int, i: nat)
    requires i % 2 == 1
    ensures Lcg.Index(seed, i) % 2 == seed % 2
  {
    EvenModulus(Lcg.Abs(seed), (i + 1) / 2);
    assert 2 * ((i + 1) / 2) == i + 1;
  }

  /** Whatever the published number, the choices at the odd positions are all even or all odd. */
  lemma OddChoicesShareParity(n: int, size: nat, i: nat, j: nat)
    requires i < size && j < size && i % 2 == 1 && j % 2 == 1
    ensures Drawn(n, size)[i] % 2 == Drawn(n, size)[j] % 2
  {
    hide Lcg.State, Lcg.Index, Lcg.InitialSeed;
    StateParity(n, size - i);
    StateParity(n, size - j);
    IndexParity(Lcg.State(n, size - i), i);
    IndexParity(Lcg.State(n, size - j), j);
  }

  // ---------------------------------------------------------------- which orders are drawn

  ghost predicate IsDrawn<T>(pool: seq<T>, t: seq<T>) {
    exists n: nat :: Shuffled(pool, n) == t
  }

  ghost predicate NeverDrawn<T>(pool: seq<T>, t: seq<T>) {
    forall n: int :: Shuffled(pool, n) != t
  }

  /** An order whose choices at two odd positions differ in parity is drawn by no number at all. */
  lemma MixedParityIsNeverDrawn<T>(pool: seq<T>, c: seq<nat>, i: nat, j: nat)
    requires Distinct(pool) && Choices(c, |pool|)
    requires i < |pool| && j < |pool| && i % 2 == 1 && j % 2 == 1 && c[i] % 2 != c[j] % 2
    ensures multiset(Order(pool, c)) == multiset(pool) && NeverDrawn(pool, Order(pool, c))
  {
    var t := Order(pool, c);
    ShuffleIsFair(pool, t);
    forall n: int
      ensures Shuffled(pool, n) != t
    {
      OddChoicesShareParity(n, |pool|, i, j);
      assert Shuffled(pool, n) == Order(pool, Drawn(n, |pool|));
    }
  }

  lemma Mask(x: int, q: int)
    requires -Lcg.TWO31 <= x - Lcg.TWO32 * q < Lcg.TWO31
    ensures Lcg.ToInt32(x) == x - Lcg.TWO32 * q
  {
  }

  lemma SmallStates(n: nat)
    requires n < 6
    ensures Lcg.State(n, 1) == 1013904223 + 1664525 * n
    ensures Lcg.State(n, 2) == [1196435762, 1586005467, 1975575172, -1929822419, -1540252714, -1150683009][n]
  {
    hide Lcg.State, Lcg.InitialSeed, Lcg.Documented, Lcg.ToInt32;
    Lcg.InitialIsRemainder(n);
    Lcg.NextState(n, 0);
    Lcg.GeneratorIsExact(n, 0);
    Lcg.GeneratorIsExact(n, 1);
    Mask(n * Lcg.A + Lcg.C, 0);
    Mask((1013904223 + 1664525 * n) * Lcg.A + Lcg.C, [392941, 393586, 394231, 394877, 395522, 396167][n]);
  }

  /** The number below 6 that draws these choices. */
  function SeedFor(c: seq<nat>): nat
    requires Choices(c, |c|) && |c| <= 3
  {
    if |c| == 3 then [[4, 0, 2], [1, 3, 5]][c[1]][c[2]] else if |c| == 2 then 1 - c[1] else 0
  }

  lemma SmallChoicesAreDrawn(c: seq<nat>)
    requires Choices(c, |c|) && |c| <= 3
    ensures SeedFor(c) < 6 && Drawn(SeedFor(c), |c|) == c
  {
    hide Lcg.State, Lcg.InitialSeed;
    SmallStates(SeedFor(c));
    var d := Drawn(SeedFor(c), |c|);
    if |c| == 3 {
      assert d[2] == c[2];
      assert d[1] == c[1];
    } else if |c| == 2 {
      assert d[1] == c[1];
    }
  }

  /**
   * The swap loop could produce every order of the pool, but its generator
   * produces them all, over all published numbers, exactly for pools of at most
   * three candidates.
   */
  lemma EveryOrderIsDrawnUpToThree<T(!new)>(pool: seq<T>)
    requires Distinct(pool)
    ensures (forall t :: multiset(t) == multiset(pool) ==> IsDrawn(pool, t)) <==> |pool| <= 3
    ensures |pool| > 3 ==> exists t :: multiset(t) == multiset(pool) && NeverDrawn(pool, t)
  {
    if |pool| <= 3 {
      forall t | multiset(t) == multiset(pool)
        ensures IsDrawn(pool, t)
      {
        ShuffleIsFair(pool, t);
        var c :| Choices(c, |pool|) && Order(pool, c) == t;
        SmallChoicesAreDrawn(c);
        assert Shuffled(pool, SeedFor(c)) == t;
      }
    } else {
      var c := seq(|pool|, (k: int) requires 0 <= k < |pool| => if k == 1 then 1 else 0);
      MixedParityIsNeverDrawn(pool, c, 1, 3);
      var t := Order(pool, c);
      assert multiset(t) == multiset(pool) && NeverDrawn(pool, t);
      assert !IsDrawn(pool, t);
    }
  }
}
