/**
 * The linear congruential generator behind the jury shuffle, as it runs on
 * JavaScript numbers: IEEE doubles, then a signed 32-bit mask.
 */
module Lcg {
  const TWO31: int := 0x8000_0000
  const TWO32: int := 0x1_0000_0000
  const TWO53: int := 0x20_0000_0000_0000
  const A: int := 1664525
  const C: int := 1013904223
  const A_INVERSE: int := 4276115653

  // ---------------------------------------------------------------- JavaScript numbers

  /** The spacing of doubles around `a`. */
  function Ulp(a: nat): (u: nat)
    ensures u >= 1
  {
    if a < TWO53 then 1 else 2 * Ulp(a / 2)
  }

  /** The double nearest to an integer, ties to even. */
  function Fl(x: int): int {
    var a := if x < 0 then -x else x;
    var u := Ulp(a);
    var q, r := a / u, a % u;
    var rounded := if 2 * r > u || (2 * r == u && q % 2 == 1) then (q + 1) * u else q * u;
    if x < 0 then -rounded else rounded
  }

  /** ToInt32, section 7.1.6 of ECMA-262; `& 0xffffffff` is exactly this. */
  function ToInt32(x: int): int {
    var r := x % TWO32;
    if r >= TWO31 then r - TWO32 else r
  }

  /** `%` on BigInt: the remainder takes the sign of the dividend. */
  function BigIntRem(n: int, m: int): int
    requires m > 0
  {
    if n >= 0 then n % m else -((-n) % m)
  }

  /** `seed = (seed * 1664525 + 1013904223) & 0xffffffff`, every operation rounded. */
  function Step(seed: int): int {
    ToInt32(Fl(Fl(seed * A) + C))
  }

  function Abs(x: int): nat { if x < 0 then -x else x }

  function InitialSeed(n: int): int { Fl(BigIntRem(n, 0xffff_ffff)) }

  /** The generator after `k` steps from the published number `n`. */
  function State(n: int, k: nat): int {
    if k == 0 then InitialSeed(n) else Step(State(n, k - 1))
  }

  /** `Math.abs(seed) % (i + 1)` */
  function Index(seed: int, i: nat): (j: nat)
    ensures j <= i
  {
    Abs(seed) % (i + 1)
  }

  // ---------------------------------------------------------------- exactness

  lemma ExactWhenSmall(x: int)
    requires -TWO53 < x < TWO53
    ensures Fl(x) == x
  {
    assert Ulp(Abs(x)) == 1;
  }

  predicate SeedRange(seed: int) { -TWO32 < seed < TWO32 }

  lemma StepIsExact(seed: int)
    requires SeedRange(seed)
    ensures -TWO53 < seed * A < TWO53 && -TWO53 < seed * A + C < TWO53
    ensures Step(seed) == ToInt32(seed * A + C)
    ensures -TWO31 <= Step(seed) < TWO31
    ensures Step(seed) % TWO32 == (seed * A + C) % TWO32
  {
    ExactWhenSmall(seed * A);
    ExactWhenSmall(seed * A + C);
  }

  /** The unsigned recurrence the source documents. */
  function Documented(r: int, k: nat): (s: int)
    ensures k > 0 ==> 0 <= s < TWO32
  {
    if k == 0 then r else (Documented(r, k - 1) * A + C) % TWO32
  }

  /** The recurrence in the source's numbers, starting from the seed. */
  lemma DocumentedGoesOn(r: int, k: nat)
    ensures Documented(r, 0) == r
    ensures Documented(r, k + 1) == (Documented(r, k) * 1664525 + 1013904223) % 0x1_0000_0000
  {
  }

  lemma SameResidue(x: int, y: int)
    requires x % TWO32 == y % TWO32
    ensures (x * A + C) % TWO32 == (y * A + C) % TWO32
  {
    var q := x / TWO32 - y / TWO32;
    assert x - y == TWO32 * q;
    assert x * A + C == TWO32 * (q * A) + (y * A + C);
    ModAddsMultiple(y * A + C, q * A);
  }

  lemma ModAddsMultiple(x: int, q: int)
    ensures (TWO32 * q + x) % TWO32 == x % TWO32
  {
    var k, r := x / TWO32, x % TWO32;
    assert TWO32 * q + x == TWO32 * (q + k) + r;
  }

  /**
   * No intermediate value is ever rounded: every seed stays a safe integer, every
   * masked state fits in 32 bits, and it agrees modulo 2^32 with the documented
   * recurrence.
   */
  lemma {:induction false} GeneratorIsExact(n: int, k: nat)
    ensures SeedRange(State(n, k))
    ensures k > 0 ==> -TWO31 <= State(n, k) < TWO31
    ensures State(n, k) % TWO32 == Documented(InitialSeed(n), k) % TWO32
    ensures State(n, k + 1) == ToInt32(State(n, k) * A + C)
  {
    hide Fl, ToInt32, Step, State;
    NextState(n, k);
    NextState(n, 0);
    if k == 0 {
      ExactWhenSmall(BigIntRem(n, 0xffff_ffff));
    } else {
      NextState(n, k - 1);
      GeneratorIsExact(n, k - 1);
      StepIsExact(State(n, k - 1));
      SameResidue(State(n, k - 1), Documented(InitialSeed(n), k - 1));
    }
    StepIsExact(State(n, k));
  }

  /** The signed state draws the same index from a residue and from its negation. */
  lemma IndexFoldsResidue(x: int, i: nat)
    ensures var r := x % TWO32;
            Index(ToInt32(x), i) == (if r < TWO31 then r else TWO32 - r) % (i + 1)
  {
  }

  /** The mask is the one 32-bit signed number that is congruent. */
  lemma MaskIsCongruent(x: int, y: int)
    ensures y == ToInt32(x) <==> -0x8000_0000 <= y < 0x8000_0000 && y % 0x1_0000_0000 == x % 0x1_0000_0000
  {
  }

  /** From the first step on, the state is the documented one, read as a signed number. */
  lemma StateIsDocumented(n: int, k: nat)
    requires k > 0
    ensures State(n, k) == ToInt32(Documented(if n >= 0 then n % 0xffff_ffff else -((-n) % 0xffff_ffff), k))
  {
    hide ToInt32, State, Documented;
    ExactWhenSmall(BigIntRem(n, 0xffff_ffff));
    GeneratorIsExact(n, k);
    MaskIsCongruent(Documented(InitialSeed(n), k), State(n, k));
  }

  /** `%` on BigInt leaves a remainder that is congruent, smaller than the divisor, and signed like the dividend. */
  lemma RemainderTakesSign(n: int, m: int)
    requires m > 0
    ensures var r := BigIntRem(n, m); -m < r < m && (n >= 0 ==> r >= 0) && (n <= 0 ==> r <= 0) && (n - r) % m == 0
  {
    if n >= 0 {
      assert n - n % m == m * (n / m);
    } else {
      assert n + (-n) % m == m * -(-n / m);
    }
    MultipleRemainder(m, if n >= 0 then n / m else -(-n / m));
  }

  lemma MultipleRemainder(m: int, q: int)
    requires m > 0
    ensures (m * q) % m == 0
  {
    var n := m * q;
    var (q', r) := (n / m, n % m);
    assert n == m * q' + r;
    assert m * (q - q') == m * q - m * q';
    if q - q' >= 1 { AtLeastOnce(m, q - q'); }
    if q' - q >= 1 { AtLeastOnce(m, q' - q); NegatedProduct(m, q - q'); }
  }

  lemma AtLeastOnce(m: int, k: int)
    requires m > 0 && k >= 1
    ensures m * k >= m
  {
  }

  ghost predicate PowerOfTwo(u: nat) { u == 1 || (u > 1 && u % 2 == 0 && PowerOfTwo(u / 2)) }

  /** The spacing is a power of two, and as fine as 53 bits allow. */
  lemma {:induction false} SpacingFits(a: nat)
    ensures PowerOfTwo(Ulp(a))
    ensures a < 0x20_0000_0000_0000 * Ulp(a)
    ensures Ulp(a) == 1 || (Ulp(a) % 2 == 0 && 0x10_0000_0000_0000 * Ulp(a) <= a)
  {
    if a >= TWO53 {
      SpacingFits(a / 2);
      var u := Ulp(a / 2);
      assert Ulp(a) == 2 * u;
      hide Ulp;
      assert (2 * u) / 2 == u;
    }
  }

  /** The nearer of the multiples `p` and `p + 1`, the even one from halfway. */
  function Nearer(u: int, p: int, r: int): int {
    if 2 * r > u || (2 * r == u && p % 2 == 1) then p + 1 else p
  }

  lemma NearerIsNear(u: int, p: int, r: int)
    requires 0 <= r < u && p >= 0
    ensures var (x, y) := (u * p + r, u * Nearer(u, p, r));
            -u <= 2 * (y - x) <= u && (2 * (y - x) == u || 2 * (x - y) == u ==> Nearer(u, p, r) % 2 == 0)
  {
    var low := u * p;
    assert u * (p + 1) == low + u;
  }

  lemma RoundsMagnitude(x: int) returns (u: int, p: int, r: int)
    ensures u == Ulp(Abs(x)) && p >= 0 && 0 <= r < u && u * p + r == Abs(x)
    ensures Fl(x) == u * if x < 0 then -Nearer(u, p, r) else Nearer(u, p, r)
  {
    hide Ulp, Nearer, Fl;
    u := Ulp(Abs(x));
    p, r := Abs(x) / u, Abs(x) % u;
    Divided(Abs(x), u);
    RoundedParts(x, u, p, r);
    NegatedProduct(u, Nearer(u, p, r));
    assert u * Nearer(u, p, r) == Nearer(u, p, r) * u;
  }

  lemma Divided(a: nat, u: nat)
    requires u > 0
    ensures u * (a / u) + a % u == a && a / u >= 0 && 0 <= a % u < u
  {
  }

  lemma RoundedParts(x: int, u: int, p: int, r: int)
    requires u == Ulp(Abs(x)) && p == Abs(x) / u && r == Abs(x) % u
    ensures Fl(x) == if x < 0 then -(Nearer(u, p, r) * u) else Nearer(u, p, r) * u
  {
    hide Ulp;
  }

  /** Rounding goes to the nearest multiple of the spacing, from halfway to an even one, and below zero alike. */
  lemma RoundsToNearest(x: int)
    ensures var u: int := Ulp(Abs(x));
            && Fl(x) % u == 0 && -u <= 2 * (Fl(x) - x) <= u
            && (2 * (Fl(x) - x) == u || 2 * (x - Fl(x)) == u ==> (Fl(x) / u) % 2 == 0)
  {
    var u, p, r := RoundsMagnitude(x);
    NearerIsNear(u, p, r);
    var q := Nearer(u, p, r);
    hide Fl, Ulp, Nearer;
    var k := if x < 0 then -q else q;
    MultipleRemainder(u, k);
    ExactQuotient(u, k);
    NegatedProduct(u, q);
    EvenNegated(q);
  }

  lemma EvenNegated(q: int)
    ensures q % 2 == 0 <==> -q % 2 == 0
  {
  }

  lemma NegatedProduct(u: int, q: int)
    ensures u * -q == -(u * q) && q * u == u * q
  {
  }

  lemma ExactQuotient(u: int, q: int)
    requires u > 0
    ensures (u * q) / u == q
  {
    MultipleRemainder(u, q);
    var q' := (u * q) / u;
    assert u * q' == u * q;
    assert u * (q' - q) == 0;
  }

  // ---------------------------------------------------------------- states never merge

  lemma CancelMultiplier(d: int, k: int)
    requires d * A == TWO32 * k
    ensures d == TWO32 * (k * A_INVERSE - d * 1657219)
  {
    assert d * 1664525 * 4276115653 == d * (0x1_0000_0000 * 1657219 + 1);
  }

  lemma StepIsInjective(x: int, y: int)
    requires (x * A + C) % TWO32 == (y * A + C) % TWO32
    ensures x % TWO32 == y % TWO32
  {
    var k := (x * A + C) / TWO32 - (y * A + C) / TWO32;
    assert (x - y) * A == x * A - y * A == TWO32 * k;
    CancelMultiplier(x - y, k);
    ModAddsMultiple(y, k * A_INVERSE - (x - y) * 1657219);
  }

  /** Two published numbers with different initial residues never reach the same state. */
  lemma {:induction false} StatesNeverMerge(m: int, n: int, k: nat)
    ensures State(m, k) % TWO32 == State(n, k) % TWO32 <==> InitialSeed(m) % TWO32 == InitialSeed(n) % TWO32
  {
    hide Fl, ToInt32, InitialSeed;
    if k > 0 {
      var x, y := State(m, k - 1), State(n, k - 1);
      StatesNeverMerge(m, n, k - 1);
      GeneratorIsExact(m, k - 1);
      GeneratorIsExact(n, k - 1);
      StepIsExact(x);
      StepIsExact(y);
      if x % TWO32 == y % TWO32 { SameResidue(x, y); }
      if State(m, k) % TWO32 == State(n, k) % TWO32 { StepIsInjective(x, y); }
    }
  }

  lemma NextState(n: int, k: nat)
    ensures State(n, k + 1) == Step(State(n, k)) && State(n, 0) == InitialSeed(n)
  {
  }

  lemma InitialIsRemainder(n: nat)
    ensures 0 <= InitialSeed(n) == n % 0xffff_ffff < TWO32
  {
    ExactWhenSmall(n % 0xffff_ffff);
  }

  lemma SameWithin32Bits(x: int, y: int)
    requires -TWO32 < x - y < TWO32 && x % TWO32 == y % TWO32
    ensures x == y
  {
  }

  /** Published numbers collide, at any step, exactly when they agree modulo 2^32 - 1. */
  lemma PublishedNumbersCollide(m: nat, n: nat, k: nat)
    ensures State(m, k) == State(n, k) <==> m % 0xffff_ffff == n % 0xffff_ffff
  {
    InitialIsRemainder(m);
    InitialIsRemainder(n);
    hide State, InitialSeed, ToInt32, Documented;
    NextState(m, 0);
    NextState(n, 0);
    if k > 0 {
      StatesNeverMerge(m, n, k);
      GeneratorIsExact(m, k);
      GeneratorIsExact(n, k);
      if State(m, k) == State(n, k) {
        SameWithin32Bits(InitialSeed(m), InitialSeed(n));
      } else if InitialSeed(m) == InitialSeed(n) {
        SameWithin32Bits(State(m, k), State(n, k));
      }
    }
  }
}
