/** The seeded Fisher-Yates shuffle and the juries drawn from it. */
module JuryShuffle {
  import opened Wrappers
  import Lcg

  function Swap<T>(s: seq<T>, i: nat, j: nat): (r: seq<T>)
    requires i < |s| && j < |s|
    ensures |r| == |s|
  {
    s[i := s[j]][j := s[i]]
  }

  /** One choice per position, each at most the position itself. */
  predicate Choices(c: seq<nat>, n: nat) {
    |c| == n && forall i :: 0 <= i < n ==> c[i] <= i
  }

  /** Swap position `k` with position `c[k]`, for `k` from `i` down to 1. */
  function Arrange<T>(s: seq<T>, c: seq<nat>, i: nat): (r: seq<T>)
    requires Choices(c, |s|) && (i < |s| || i == 0)
    ensures |r| == |s|
    decreases i
  {
    if i == 0 then s else Arrange(Swap(s, i, c[i]), c, i - 1)
  }

  /** Position `k` of `n` is served by step `n - k` of the generator. */
  function Draw(seed: int, n: nat, k: nat): (j: nat)
    ensures j <= k
  {
    if 0 < k < n then Lcg.Index(Lcg.State(seed, n - k), k) else 0
  }

  function Drawn(seed: int, n: nat): (c: seq<nat>)
    ensures Choices(c, n)
    ensures forall k :: 0 <= k < n ==> c[k] == Draw(seed, n, k)
  {
    hide Draw;
    seq(n, k requires 0 <= k < n => Draw(seed, n, k))
  }

  function Shuffled<T>(pool: seq<T>, seed: int): seq<T> {
    Arrange(pool, Drawn(seed, |pool|), if |pool| == 0 then 0 else |pool| - 1)
  }

  method FisherYatesShuffle<T(0)>(pool: array<T>, seed: int) returns (shuffled: array<T>)
    ensures fresh(shuffled) && shuffled[..] == Shuffled(pool[..], seed)
    ensures pool[..] == old(pool[..])
  {
    hide Lcg.State, Lcg.Step, Lcg.InitialSeed, Lcg.Index;
    var n := pool.Length;
    shuffled := new T[n](i requires 0 <= i < n reads pool => pool[i]);
    assert shuffled[..] == pool[..];
    var state := Lcg.InitialSeed(seed);
    var i := n - 1;
    ghost var c := Drawn(seed, n);
    Lcg.NextState(seed, 0);
    while i > 0
      invariant n == 0 ==> i == -1 && shuffled[..] == []
      invariant n > 0 ==> 0 <= i < n && state == Lcg.State(seed, n - 1 - i)
      invariant n > 0 ==> Arrange(shuffled[..], c, i) == Shuffled(pool[..], seed)
      invariant pool[..] == old(pool[..])
    {
      Lcg.NextState(seed, n - 1 - i);
      state := Lcg.Step(state);
      var j := Lcg.Index(state, i);
      ghost var before := shuffled[..];
      shuffled[i], shuffled[j] := shuffled[j], shuffled[i];
      assert shuffled[..] == Swap(before, i, c[i]);
      i := i - 1;
    }
  }

  // ---------------------------------------------------------------- place by place

  /** The loop down from place `i` looks at no place and no choice above it. */
  lemma {:induction false} ArrangeIsLocal<T>(s: seq<T>, c: seq<nat>, i: nat)
    requires Choices(c, |s|) && i < |s|
    ensures Arrange(s, c, i)[..i + 1] == Arrange(s[..i + 1], c[..i + 1], i)
    decreases i
  {
    if i > 0 {
      var (s', c') := (s[..i + 1], c[..i + 1]);
      var (t, t') := (Swap(s, i, c[i]), Swap(s', i, c[i]));
      ArrangeIsLocal(t, c, i - 1);
      ArrangeIsLocal(t', c', i - 1);
      assert t'[..i] == t[..i] && c'[..i] == c[..i];
      ArrangePermutes(t, c, i - 1);
      ArrangePermutes(t', c', i - 1);
      hide Swap;
      SameUpTo(Arrange(t, c, i - 1), Arrange(t', c', i - 1), i);
    }
  }

  lemma SameUpTo<T>(a: seq<T>, b: seq<T>, i: nat)
    requires i < |a| && |b| == i + 1 && a[..i] == b[..i] && a[i] == b[i]
    ensures a[..i + 1] == b
  {
    assert a[..i + 1] == a[..i] + [a[i]] && b == b[..i] + [b[i]];
  }

  /**
   * Place `i` receives the candidate at the chosen place, which in turn receives
   * the one that stood at `i`; what is below goes on with the other choices.
   */
  lemma ArrangePlaceByPlace<T>(s: seq<T>, c: seq<nat>, i: nat)
    requires Choices(c, |s|) && 0 < i < |s|
    ensures Arrange(s, c, i)[i] == s[c[i]]
    ensures Arrange(s, c, i)[..i] == Arrange(if c[i] < i then s[..i][c[i] := s[i]] else s[..i], c[..i], i - 1)
    ensures Arrange(s, c, i)[i + 1..] == s[i + 1..]
  {
    var t := Swap(s, i, c[i]);
    ArrangePermutes(t, c, i - 1);
    ArrangeIsLocal(t, c, i - 1);
    assert t[..i] == if c[i] < i then s[..i][c[i] := s[i]] else s[..i];
  }

  /** The choice at place `k` is the documented recurrence, read as a signed number, without sign, modulo `k + 1`. */
  lemma DrawnFromDocumented(seed: int, n: nat, k: nat)
    requires 0 < k < n
    ensures var first: int := if seed >= 0 then seed % 0xffff_ffff else -((-seed) % 0xffff_ffff);
            var x := Lcg.ToInt32(Lcg.Documented(first, n - k));
            Drawn(seed, n)[k] == (if x < 0 then -x else x) % (k + 1)
  {
    hide Lcg.State, Lcg.ToInt32, Lcg.Documented;
    Lcg.StateIsDocumented(seed, n - k);
  }

  /** The shuffle is the arrangement of the whole pool by the choices drawn for its size. */
  lemma ShuffledFromTheTop<T>(pool: seq<T>, seed: int)
    ensures |pool| <= 1 ==> Shuffled(pool, seed) == pool
    ensures |pool| > 1 ==> Shuffled(pool, seed) == Arrange(pool, Drawn(seed, |pool|), |pool| - 1)
  {
  }

  // ---------------------------------------------------------------- permutation

  lemma SwapPermutes<T>(s: seq<T>, i: nat, j: nat)
    requires i < |s| && j < |s|
    ensures multiset(Swap(s, i, j)) == multiset(s)
  {
  }

  lemma {:induction false} ArrangePermutes<T>(s: seq<T>, c: seq<nat>, i: nat)
    requires Choices(c, |s|) && (i < |s| || i == 0)
    ensures multiset(Arrange(s, c, i)) == multiset(s)
    ensures forall k :: i < k < |s| ==> Arrange(s, c, i)[k] == s[k]
    decreases i
  {
    if i > 0 {
      SwapPermutes(s, i, c[i]);
      ArrangePermutes(Swap(s, i, c[i]), c, i - 1);
    }
  }

  lemma DistinctOfMultiset<T>(s: seq<T>, t: seq<T>)
    requires Distinct(s) && multiset(t) == multiset(s)
    ensures Distinct(t) && |t| == |s|
  {
    assert |multiset(t)| == |t| && |multiset(s)| == |s|;
    if i, j :| 0 <= i < j < |t| && t[i] == t[j] {
      assert t == t[..i] + [t[i]] + t[i + 1..j] + [t[j]] + t[j + 1..];
      assert multiset(t)[t[i]] >= 2;
      AtMostOnce(s, t[i]);
    }
  }

  lemma {:induction false} AtMostOnce<T>(s: seq<T>, x: T)
    requires Distinct(s)
    ensures multiset(s)[x] <= 1
  {
    if s != [] {
      assert s == [s[0]] + s[1..];
      AtMostOnce(s[1..], x);
      if s[0] == x { assert x !in s[1..]; }
    }
  }

  // ---------------------------------------------------------------- fairness core

  lemma SwapKeepsDistinct<T>(s: seq<T>, i: nat, j: nat)
    requires Distinct(s) && i < |s| && j < |s|
    ensures Distinct(Swap(s, i, j))
  {
  }

  lemma SamePlace<T>(s: seq<T>, i: nat, j: nat)
    requires Distinct(s) && i < |s| && j < |s| && s[i] == s[j]
    ensures i == j
  {
  }

  /** Different choices, different orders. */
  lemma {:induction false} ChoicesAreReadBack<T>(s: seq<T>, c: seq<nat>, d: seq<nat>, i: nat)
    requires Distinct(s) && Choices(c, |s|) && Choices(d, |s|) && (i < |s| || i == 0)
    requires Arrange(s, c, i) == Arrange(s, d, i)
    ensures forall k :: 0 < k <= i < |s| ==> c[k] == d[k]
    decreases i
  {
    hide Distinct;
    if i > 0 {
      ArrangePlaceByPlace(s, c, i);
      ArrangePlaceByPlace(s, d, i);
      SamePlace(s, c[i], d[i]);
      SwapKeepsDistinct(s, i, c[i]);
      hide Swap;
      ChoicesAreReadBack(Swap(s, i, c[i]), c, d, i - 1);
    }
  }

  /** Choices that lead from `s` to `t`, position by position from the end. */
  ghost function Leading<T>(s: seq<T>, t: seq<T>, i: nat): (c: seq<nat>)
    requires multiset(s) == multiset(t) && |s| == |t| && (i < |s| || i == 0)
    requires forall k :: i < k < |s| ==> s[k] == t[k]
    ensures Choices(c, |s|) && Arrange(s, c, i) == t
    decreases i
  {
    if i == 0 then
      LastOneFits(s, t);
      seq(|s|, k requires 0 <= k < |s| => 0)
    else
      var j := Source(s, t, i);
      SwapPermutes(s, i, j);
      var c := Leading(Swap(s, i, j), t, i - 1);
      IgnoresAbove(Swap(s, i, j), c, c[i := j], i - 1);
      c[i := j]
  }

  lemma {:induction false} IgnoresAbove<T>(s: seq<T>, c: seq<nat>, d: seq<nat>, i: nat)
    requires Choices(c, |s|) && Choices(d, |s|) && (i < |s| || i == 0)
    requires forall k :: 0 < k <= i < |s| ==> c[k] == d[k]
    ensures Arrange(s, c, i) == Arrange(s, d, i)
    decreases i
  {
    if i > 0 { IgnoresAbove(Swap(s, i, c[i]), c, d, i - 1); }
  }

  lemma LastOneFits<T>(s: seq<T>, t: seq<T>)
    requires multiset(s) == multiset(t) && |s| == |t|
    requires forall k :: 0 < k < |s| ==> s[k] == t[k]
    ensures s == t
  {
    if s != [] {
      assert s == [s[0]] + s[1..] && t == [t[0]] + t[1..] && s[1..] == t[1..];
      assert multiset(s) == multiset([s[0]]) + multiset(s[1..]);
      assert multiset(t) == multiset([t[0]]) + multiset(s[1..]);
      assert multiset([s[0]]) == multiset([t[0]]) by {
        assert multiset([s[0]]) == multiset(s) - multiset(s[1..]);
        assert multiset([t[0]]) == multiset(t) - multiset(s[1..]);
      }
      assert s[0] in multiset([t[0]]);
    }
  }

  ghost function Source<T>(s: seq<T>, t: seq<T>, i: nat): (j: nat)
    requires multiset(s) == multiset(t) && |s| == |t| && i < |s|
    requires forall k :: i < k < |s| ==> s[k] == t[k]
    ensures j <= i && s[j] == t[i]
  {
    PrefixesAgree(s, t, i);
    assert t[i] in multiset(t[..i + 1]);
    assert t[i] in s[..i + 1];
    var j: nat :| j <= i && s[j] == t[i];
    j
  }

  lemma PrefixesAgree<T>(s: seq<T>, t: seq<T>, i: nat)
    requires multiset(s) == multiset(t) && |s| == |t| && i < |s|
    requires forall k :: i < k < |s| ==> s[k] == t[k]
    ensures multiset(s[..i + 1]) == multiset(t[..i + 1])
  {
    assert s == s[..i + 1] + s[i + 1..] && t == t[..i + 1] + t[i + 1..] && s[i + 1..] == t[i + 1..];
    assert multiset(s) == multiset(s[..i + 1]) + multiset(s[i + 1..]);
    assert multiset(t) == multiset(t[..i + 1]) + multiset(s[i + 1..]);
    assert multiset(s[..i + 1]) == multiset(s) - multiset(s[i + 1..]);
    assert multiset(t[..i + 1]) == multiset(t) - multiset(s[i + 1..]);
  }

  /** The whole shuffle as a function of its choices. */
  ghost function Order<T>(pool: seq<T>, c: seq<nat>): seq<T>
    requires Choices(c, |pool|)
  {
    Arrange(pool, c, if |pool| == 0 then 0 else |pool| - 1)
  }

  /**
   * For distinct candidates the swap loop is a bijection from choice vectors
   * onto arrangements of the pool: exactly the permutations are reached, each by
   * exactly one vector.
   */
  lemma ShuffleIsFair<T>(pool: seq<T>, t: seq<T>)
    requires Distinct(pool)
    ensures multiset(t) == multiset(pool) <==> exists c :: Choices(c, |pool|) && Order(pool, c) == t
    ensures forall c, d :: Choices(c, |pool|) && Choices(d, |pool|) && Order(pool, c) == Order(pool, d) ==> c == d
  {
    var last := if |pool| == 0 then 0 else |pool| - 1;
    if multiset(t) == multiset(pool) {
      DistinctOfMultiset(pool, t);
      var c := Leading(pool, t, last);
      assert Choices(c, |pool|) && Order(pool, c) == t;
    }
    forall c | Choices(c, |pool|)
      ensures multiset(Order(pool, c)) == multiset(pool)
    {
      ArrangePermutes(pool, c, last);
    }
    forall c, d | Choices(c, |pool|) && Choices(d, |pool|) && Order(pool, c) == Order(pool, d)
      ensures c == d
    {
      ChoicesAreReadBack(pool, c, d, last);
      assert forall k :: 0 <= k < |c| ==> c[k] == d[k];
    }
  }
}
