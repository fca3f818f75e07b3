/** Fixed-width C arithmetic on mathematical integers. */
module Machine {

  const TWO31: int := 0x8000_0000
  const TWO32: int := 0x1_0000_0000
  const TWO63: int := 0x8000_0000_0000_0000
  const TWO64: int := 0x1_0000_0000_0000_0000

  function U8(x: int): nat { x % 256 }

  function U32(x: int): nat { x % TWO32 }

  function U64(x: int): nat { x % TWO64 }

  function S32(x: int): int { (x + TWO31) % TWO32 - TWO31 }

  function S64(x: int): int { (x + TWO63) % TWO64 - TWO63 }

  predicate IsU32(x: int) { 0 <= x < TWO32 }

  predicate IsS64(x: int) { -TWO63 <= x < TWO63 }

  /** C's signed division, which truncates toward zero. */
  function TruncDiv(a: int, b: int): int
    requires b > 0
  {
    if a >= 0 then a / b else -((-a) / b)
  }

  function Pow2(k: nat): (p: nat)
    ensures p > 0
  {
    if k == 0 then 1 else 2 * Pow2(k - 1)
  }

  lemma MultipleInside(d: int, m: int)
    requires m > 0 && -m < d * m < m
    ensures d == 0
  {
  }

  /** The quotient and remainder of a division are unique. */
  lemma DivModUnique(a: int, m: int, q: int, r: int)
    requires m > 0 && a == q * m + r && 0 <= r < m
    ensures a / m == q && a % m == r
  {
    var d := a / m - q;
    assert d * m == r - a % m by {
      assert a == (a / m) * m + a % m;
      assert d * m == (a / m) * m - q * m;
    }
    assert d * m > -m && d * m < m;
    MultipleInside(d, m);
  }

  /** Adding a multiple of the modulus changes nothing. */
  lemma ModShift(a: int, q: int, m: int)
    requires m > 0
    ensures (a + q * m) % m == a % m
  {
    assert a + q * m == (a / m + q) * m + a % m;
    DivModUnique(a + q * m, m, a / m + q, a % m);
  }

  /** Two numbers have the same remainder exactly when the modulus divides their difference. */
  lemma ModEqualIffDifference(a: int, b: int, m: int)
    requires m > 0
    ensures a % m == b % m <==> (a - b) % m == 0
  {
    if (a - b) % m == 0 {
      var q := (a - b) / m;
      assert a == b + q * m;
      ModShift(b, q, m);
    }
    if a % m == b % m {
      var q := a / m - b / m;
      assert a - b == q * m + 0 by {
        assert q * m == (a / m) * m - (b / m) * m;
      }
      DivModUnique(a - b, m, q, 0);
    }
  }

  /** Reducing first by a multiple of the modulus changes nothing. */
  lemma ModOfMod(a: int, m: int, c: int)
    requires m > 0 && c > 0
    ensures m * c > 0 && (a % (m * c)) % m == a % m
  {
    var q := a / (m * c);
    assert a == a % (m * c) + (q * c) * m by {
      assert q * (m * c) == (q * c) * m;
    }
    ModShift(a % (m * c), q * c, m);
  }

  // ---------- floor division ----------

  lemma TimesVersusQuotient(k: int, d: int, x: int)
    requires d > 0
    ensures k * d > x <==> k > x / d
  {
    var q := x / d;
    Remainder(x, d);
    if k > q {
      ProductMonotone(q + 1, k, d);
      assert (q + 1) * d == q * d + d;
    } else {
      ProductMonotone(k, q, d);
    }
  }

  lemma Remainder(x: int, d: int)
    requires d > 0
    ensures x / d * d <= x < x / d * d + d
  {
  }

  lemma QuotientMonotone(x: int, y: int, d: int)
    requires d > 0 && x <= y
    ensures x / d <= y / d
  {
    TimesVersusQuotient(x / d, d, y);
  }

  lemma ProductMonotone(a: int, b: int, d: int)
    requires d > 0 && a <= b
    ensures a * d <= b * d
  {
  }
}
