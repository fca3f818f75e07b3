/**
 The fallback pseudo-random generator of driver/kio_compat.h: a linear congruential
 generator on a 64-bit state whose low 32 bits are handed out.  The signed C state is
 represented by its two's complement bits, a natural number below 2^64.
 */
module Prandom {
  import opened Machine
  import opened Permutation

  const MULTIPLIER: int := 1664525
  const INCREMENT: int := 1013904223
  /** The multiplier is four times this, plus one. */
  const QUARTER: int := 416131
  const SEED: nat := 282589933

  function Next(state: nat): nat { U64(state * MULTIPLIER + INCREMENT) }

  /** The state after n draws from the given state. */
  function StateAfter(state: nat, n: nat): nat {
    if n == 0 then state else Next(StateAfter(state, n - 1))
  }

  /** The i-th value handed out, counting from zero. */
  function Draw(state: nat, i: nat): nat { U32(StateAfter(state, i + 1)) }

  class Generator {
    var state: nat

    constructor ()
      ensures state == SEED
    {
      state := SEED;
    }

    method PrandomU32() returns (r: nat)
      modifies this
      ensures state == StateAfter(old(state), 1)
      ensures r == Draw(old(state), 0)
    {
      state := U64(state * MULTIPLIER + INCREMENT);
      r := U32(state);
      assert StateAfter(old(state), 1) == Next(StateAfter(old(state), 0));
    }
  }

  lemma {:induction false} StateAfterAdd(state: nat, m: nat, n: nat)
    ensures StateAfter(StateAfter(state, m), n) == StateAfter(state, m + n)
  {
    if n == 0 {
    } else {
      StateAfterAdd(state, m, n - 1);
      assert m + n - 1 == m + (n - 1);
    }
  }

  lemma StateFits(state: nat, n: nat)
    requires state < TWO64
    ensures StateAfter(state, n) < TWO64
  {
  }

  // ---------- powers of two ----------

  lemma {:induction false} Pow2Add(j: nat, k: nat)
    ensures Pow2(j + k) == Pow2(j) * Pow2(k)
  {
    if j == 0 {
    } else {
      Pow2Add(j - 1, k);
      assert j + k - 1 == (j - 1) + k;
    }
  }

  lemma Pow2Constants()
    ensures Pow2(32) == TWO32 && Pow2(64) == TWO64
  {
    assert Pow2(4) == 16;
    Pow2Double(4, 16);
    Pow2Double(8, 256);
    Pow2Double(16, 65536);
    Pow2Double(32, TWO32);
  }

  lemma Pow2Double(k: nat, p: nat)
    requires Pow2(k) == p
    ensures Pow2(2 * k) == p * p
  {
    Pow2Add(k, k);
    assert k + k == 2 * k;
  }

  ghost predicate Divides(k: nat, a: int) { a % Pow2(k) == 0 }

  lemma HalveBoth(k: nat, a: int)
    requires k > 0
    ensures Divides(k, 2 * a) <==> Divides(k - 1, a)
  {
    var p := Pow2(k - 1);
    var q, r := a / p, a % p;
    assert 2 * a == q * (2 * p) + 2 * r by {
      assert a == q * p + r;
      assert q * (2 * p) == 2 * (q * p);
    }
    DivModUnique(2 * a, 2 * p, q, 2 * r);
  }

  lemma OddNotDivided(k: nat, a: int)
    requires k > 0 && a % 2 == 1
    ensures !Divides(k, a)
  {
    var p := Pow2(k - 1);
    if Divides(k, a) {
      var q := a / (2 * p);
      assert a == 2 * (q * p) by {
        assert a == q * (2 * p);
        assert q * (2 * p) == 2 * (q * p);
      }
      assert false;
    }
  }

  /** An odd factor never helps a power of two to divide. */
  lemma {:induction false} OddCancel(k: nat, a: int, w: int)
    requires w % 2 == 1
    ensures Divides(k, a * w) <==> Divides(k, a)
    decreases k
  {
    if k == 0 {
    } else if a % 2 == 1 {
      assert (a * w) % 2 == 1 by { OddTimesOdd(a, w); }
      OddNotDivided(k, a);
      OddNotDivided(k, a * w);
    } else {
      var b := a / 2;
      assert a == 2 * b;
      assert a * w == 2 * (b * w);
      OddCancel(k - 1, b, w);
      HalveBoth(k, b);
      HalveBoth(k, b * w);
    }
  }

  lemma OddTimesOdd(a: int, b: int)
    requires a % 2 == 1 && b % 2 == 1
    ensures (a * b) % 2 == 1
  {
    var x, y := a / 2, b / 2;
    assert a == 2 * x + 1 && b == 2 * y + 1;
    assert (2 * x + 1) * (2 * y + 1) == 2 * (2 * (x * y) + x + y) + 1;
  }

  // ---------- the closed form ----------

  /** 1 + a + a^2 + ... + a^(n-1), for the generator's multiplier a. */
  function Geometric(n: nat): nat {
    if n == 0 then 0 else 1 + MULTIPLIER * Geometric(n - 1)
  }

  lemma {:induction false} GeometricAdd(m: nat, n: nat)
    ensures Geometric(m + n)
         == Geometric(m) + Geometric(n) + (MULTIPLIER - 1) * (Geometric(m) * Geometric(n))
  {
    if m == 0 {
    } else {
      GeometricAdd(m - 1, n);
      assert m + n - 1 == (m - 1) + n;
      AddStep(Geometric(m - 1), Geometric(n), Geometric(m - 1 + n));
    }
  }

  lemma AddStep(g: int, h: int, x: int)
    requires x == g + h + (MULTIPLIER - 1) * (g * h)
    ensures 1 + MULTIPLIER * x
         == (1 + MULTIPLIER * g) + h + (MULTIPLIER - 1) * ((1 + MULTIPLIER * g) * h)
  {
    Distribute(g, h);
  }

  lemma {:induction false} GeometricParity(n: nat)
    ensures Geometric(n) % 2 == n % 2
  {
    if n == 0 {
    } else {
      GeometricParity(n - 1);
      ParityStep(Geometric(n - 1), n - 1);
    }
  }

  lemma ParityStep(g: int, n: int)
    requires g % 2 == n % 2
    ensures (1 + MULTIPLIER * g) % 2 == (n + 1) % 2
  {
    assert 1 + MULTIPLIER * g == (1 + g) + 2 * (2 * (QUARTER * g));
  }

  /** The heart of the full period: the geometric sum has exactly the factors of two of its length. */
  lemma {:induction false} GeometricFactors(k: nat, n: nat)
    ensures Divides(k, Geometric(n)) <==> Divides(k, n)
    decreases k
  {
    if k == 0 {
    } else if n % 2 == 1 {
      GeometricParity(n);
      OddNotDivided(k, n);
      OddNotDivided(k, Geometric(n));
    } else {
      var m := n / 2;
      assert n == 2 * m;
      GeometricHalve(k, m);
      HalveBoth(k, m);
      GeometricFactors(k - 1, m);
    }
  }

  lemma GeometricHalve(k: nat, m: nat)
    requires k > 0
    ensures Divides(k, Geometric(2 * m)) <==> Divides(k - 1, Geometric(m))
  {
    var w := GeometricDouble(m);
    HalveOddMultiple(k, Geometric(2 * m), Geometric(m), w);
  }

  lemma GeometricDouble(m: nat) returns (w: int)
    ensures w % 2 == 1 && Geometric(2 * m) == 2 * (Geometric(m) * w)
  {
    GeometricAdd(m, m);
    assert m + m == 2 * m;
    w := AsOddMultiple(Geometric(2 * m), Geometric(m));
  }

  lemma AsOddMultiple(x: int, g: int) returns (w: int)
    requires x == g + g + (MULTIPLIER - 1) * (g * g)
    ensures w % 2 == 1 && x == 2 * (g * w)
  {
    w := 1 + 2 * (QUARTER * g);
    TwiceProduct(g);
  }

  lemma HalveOddMultiple(k: nat, x: int, g: int, w: int)
    requires k > 0 && w % 2 == 1 && x == 2 * (g * w)
    ensures Divides(k, x) <==> Divides(k - 1, g)
  {
    HalveBoth(k, g * w);
    OddCancel(k - 1, g, w);
  }

  lemma TwiceProduct(g: int)
    ensures g + g + (MULTIPLIER - 1) * (g * g) == 2 * (g * (1 + 2 * (QUARTER * g)))
  {
    assert g * (2 * (QUARTER * g)) == 2 * (QUARTER * (g * g));
    assert g * (1 + 2 * (QUARTER * g)) == g + g * (2 * (QUARTER * g));
  }

  /** The state after n draws, without reduction. */
  function Unreduced(state: nat, n: nat): nat {
    state + Geometric(n) * ((MULTIPLIER - 1) * state + INCREMENT)
  }

  lemma {:induction false} ClosedForm(state: nat, n: nat)
    requires state < TWO64
    ensures StateAfter(state, n) == Unreduced(state, n) % TWO64
  {
    if n == 0 {
    } else {
      ClosedForm(state, n - 1);
      UnreducedStep(state, n);
      ReduceEarly(Unreduced(state, n - 1));
    }
  }

  lemma UnreducedStep(state: nat, n: nat)
    requires n > 0
    ensures Unreduced(state, n) == MULTIPLIER * Unreduced(state, n - 1) + INCREMENT
  {
    var g, d := Geometric(n - 1), (MULTIPLIER - 1) * state + INCREMENT;
    Distribute(g, d);
  }

  lemma Distribute(g: int, d: int)
    ensures (1 + MULTIPLIER * g) * d == d + MULTIPLIER * (g * d)
  {
  }

  lemma ReduceEarly(x: int)
    ensures ((x % TWO64) * MULTIPLIER + INCREMENT) % TWO64 == (MULTIPLIER * x + INCREMENT) % TWO64
  {
    var q := x / TWO64;
    ModShift((x % TWO64) * MULTIPLIER + INCREMENT, MULTIPLIER * q, TWO64);
  }

  lemma UnreducedDifference(k: nat, state: nat, m: nat, n: nat)
    requires m <= n
    ensures Divides(k, Unreduced(state, n) - Unreduced(state, m)) <==> Divides(k, n - m)
  {
    var w := GeometricDifference(m, n);
    UnreducedGap(state, m, n);
    OddOffset(state);
    DividesProduct(k, Unreduced(state, n) - Unreduced(state, m), Geometric(n - m), w,
                   (MULTIPLIER - 1) * state + INCREMENT);
    GeometricFactors(k, n - m);
  }

  lemma GeometricDifference(m: nat, n: nat) returns (w: int)
    requires m <= n
    ensures w % 2 == 1 && Geometric(n) - Geometric(m) == Geometric(n - m) * w
  {
    assert m + (n - m) == n;
    GeometricAdd(m, n - m);
    w := DifferenceAsOddMultiple(Geometric(n), Geometric(m), Geometric(n - m));
  }

  lemma DifferenceAsOddMultiple(x: int, g: int, h: int) returns (w: int)
    requires x == g + h + (MULTIPLIER - 1) * (g * h)
    ensures w % 2 == 1 && x - g == h * w
  {
    w := OddAfter(2 * (QUARTER * g));
    OddFactor(g, h);
    Rearranged(x, g, h, (MULTIPLIER - 1) * (g * h), h * w);
  }

  lemma OddAfter(y: int) returns (w: int)
    ensures w == 1 + 2 * y && w % 2 == 1
  {
    w := 1 + 2 * y;
  }

  lemma Rearranged(x: int, g: int, h: int, p: int, q: int)
    requires x == g + h + p && h + p == q
    ensures x - g == q
  {
  }

  lemma UnreducedGap(state: nat, m: nat, n: nat)
    ensures Unreduced(state, n) - Unreduced(state, m)
         == (Geometric(n) - Geometric(m)) * ((MULTIPLIER - 1) * state + INCREMENT)
  {
    DifferenceTimes(Geometric(n), Geometric(m), Geometric(n) - Geometric(m), (MULTIPLIER - 1) * state + INCREMENT);
  }

  lemma OddOffset(state: int)
    ensures ((MULTIPLIER - 1) * state + INCREMENT) % 2 == 1
  {
  }

  lemma DividesProduct(k: nat, x: int, h: int, w: int, d: int)
    requires w % 2 == 1 && d % 2 == 1 && x == (h * w) * d
    ensures Divides(k, x) <==> Divides(k, h)
  {
    OddCancel(k, h * w, d);
    OddCancel(k, h, w);
  }

  lemma DifferenceTimes(x: int, y: int, z: int, d: int)
    requires x - y == z
    ensures x * d - y * d == z * d
  {
  }

  lemma OddFactor(g: int, h: int)
    ensures h + (MULTIPLIER - 1) * (g * h) == h * (1 + 2 * (2 * (QUARTER * g)))
  {
    var z := 2 * (2 * (QUARTER * g));
    assert (MULTIPLIER - 1) * (g * h) == z * h;
    OnePlus(h, z);
  }

  lemma OnePlus(h: int, z: int)
    ensures h * (1 + z) == h + z * h
  {
  }

  lemma LowBits(k: nat, x: nat)
    requires k <= 64
    ensures (x % TWO64) % Pow2(k) == x % Pow2(k)
  {
    Pow2Constants();
    Pow2Add(k, 64 - k);
    assert k + (64 - k) == 64;
    ModOfMod(x, Pow2(k), Pow2(64 - k));
  }

  /** Full period: for every k up to 64, the low k bits of the state repeat with period exactly 2^k. */
  lemma {:induction false} FullPeriod(k: nat, state: nat, m: nat, n: nat)
    requires k <= 64 && state < TWO64
    ensures StateAfter(state, m) % Pow2(k) == StateAfter(state, n) % Pow2(k)
       <==> m % Pow2(k) == n % Pow2(k)
  {
    if n < m {
      FullPeriod(k, state, n, m);
    } else {
      var x, y := Unreduced(state, m), Unreduced(state, n);
      ClosedForm(state, m);
      ClosedForm(state, n);
      LowBits(k, x);
      LowBits(k, y);
      ModEqualIffDifference(y, x, Pow2(k));
      ModEqualIffDifference(n, m, Pow2(k));
      UnreducedDifference(k, state, m, n);
    }
  }

  lemma DrawsDiffer(state: nat, i: nat, j: nat)
    requires state < TWO64
    ensures Draw(state, i) == Draw(state, j) <==> i % TWO32 == j % TWO32
  {
    Pow2Constants();
    FullPeriod(32, state, i + 1, j + 1);
    ModEqualIffDifference(i, j, TWO32);
    ModEqualIffDifference(i + 1, j + 1, TWO32);
    assert (i + 1) - (j + 1) == i - j;
  }

  // ---------- one full period is a permutation ----------

  /** The values handed out from a given state on. */
  ghost function Values(state: nat): nat -> nat { i => Draw(state, i) }

  lemma PeriodPermutes(state: nat, period: nat)
    requires state < TWO64 && period == TWO32
    ensures Permutes(Values(state), period)
  {
    forall i: nat, j: nat | i < period && j < period && Values(state)(i) == Values(state)(j) ensures i == j {
      DrawsDiffer(state, i, j);
    }
  }

  /** Any 2^32 consecutive draws hand out every 32-bit value exactly once. */
  lemma EveryValueOnce(state: nat, period: nat, v: nat) returns (i: nat)
    requires state < TWO64 && period == TWO32 && v < period
    ensures i < period && Values(state)(i) == v
    ensures forall j: nat | j < period && Values(state)(j) == v :: j == i
  {
    PeriodPermutes(state, period);
    i := Preimage(Values(state), period, v);
  }

  /** A later window of the values is the values from a later state. */
  lemma {:induction false} ValuesShift(state: nat, a: nat, i: nat)
    ensures Values(state)(a + i) == Values(StateAfter(state, a))(i)
  {
    DrawLater(state, a, i, StateAfter(state, a));
  }

  lemma {:induction false} DrawLater(state: nat, a: nat, i: nat, later: nat)
    requires later == StateAfter(state, a)
    ensures Draw(state, a + i) == Draw(later, i)
  {
    StateAfterAdd(state, a, i + 1);
    SameState(state, a + i + 1, a + (i + 1));
  }

  lemma {:induction false} SameState(state: nat, m: nat, n: nat)
    requires m == n
    ensures StateAfter(state, m) == StateAfter(state, n)
  {
  }

  /** The first values that the generator hands out after the module is loaded. */
  lemma FirstDraws()
    ensures Draw(SEED, 0) == 2793807720 && Draw(SEED, 1) == 854195111 && Draw(SEED, 2) == 2682537178
  {
    assert StateAfter(SEED, 0) == SEED;
    assert StateAfter(SEED, 1) == 470379022131048;
    assert StateAfter(SEED, 2) == 8194390717895408551;
    assert StateAfter(SEED, 3) == 5833931055243216090;
  }
}
