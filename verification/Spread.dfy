/**
 Random offsets of driver/kio_run.c: which pair of random words leads where, and how evenly
 the pairs are spread over the window.
 */
module Spread {
  import opened Machine
  import opened Permutation
  import opened Config
  import opened Offset

  /** An accepted thread with random offsets, on a usable device. */
  predicate Random(t: ThreadConfig, devSize: nat, devBlock: nat) {
    Normalised(t, devSize) && devSize < TWO63 && devBlock > 0 && t.offsetRandom
  }

  function Window(t: ThreadConfig): int { t.offsetHigh - t.offsetLow }

  /** The two words make one number, of which the remainder by the window's width is the place in it. */
  lemma RandomOffsetIs(t: ThreadConfig, devSize: nat, devBlock: nat, next: int, lo: nat, hi: nat, q: nat, k: nat)
    requires Random(t, devSize, devBlock) && lo < TWO32 && hi < TWO32
    requires hi * TWO32 + lo == q * Window(t) + k && k < Window(t)
    ensures NextOffset(devBlock, t, next, lo, hi) == (RoundDown(t.offsetLow + k, devBlock), next)
  {
    var rnd := hi * TWO32 + lo;
    WordsFit(lo, hi);
    DivModUnique(rnd, Window(t), q, k);
    RandomInWindow(t, devSize, rnd);
  }

  /** The place in the window that two random words stand for. */
  function Place(t: ThreadConfig, lo: nat, hi: nat): nat
    requires Window(t) > 0
  {
    (hi * TWO32 + lo) % Window(t)
  }

  lemma PlaceIsOffset(t: ThreadConfig, devSize: nat, devBlock: nat, next: int, lo: nat, hi: nat)
    requires Random(t, devSize, devBlock) && lo < TWO32 && hi < TWO32
    ensures NextOffset(devBlock, t, next, lo, hi) == (RoundDown(t.offsetLow + Place(t, lo, hi), devBlock), next)
  {
    var q, k := QuotientOf(hi * TWO32 + lo, Window(t));
    DivModUnique(hi * TWO32 + lo, Window(t), q, k);
    RandomOffsetIs(t, devSize, devBlock, next, lo, hi, q, k);
  }

  lemma WordsFit(lo: nat, hi: nat)
    requires lo < TWO32 && hi < TWO32
    ensures hi * TWO32 + lo < TWO64 && U64(hi * TWO32 + lo) == hi * TWO32 + lo
  {
  }

  // ---------- numbers by their remainder ----------

  /** How many numbers below n have a remainder below p modulo m. */
  function Share(m: nat, p: nat, n: nat): nat
    requires m > 0
  {
    n / m * p + (if n % m <= p then n % m else p)
  }

  ghost function Under(m: nat, p: nat, n: nat): set<nat>
    requires m > 0
  {
    set v | v in Below(n) && v % m < p
  }

  lemma ShareStep(m: nat, p: nat, n: nat)
    requires m > 0 && p <= m
    ensures Share(m, p, n + 1) == Share(m, p, n) + (if n % m < p then 1 else 0)
  {
    var q, r := n / m, n % m;
    if r + 1 == m {
      assert (q + 1) * m == q * m + m;
      DivModUnique(n + 1, m, q + 1, 0);
      assert (q + 1) * p == q * p + p;
    } else {
      DivModUnique(n + 1, m, q, r + 1);
    }
  }

  lemma UnderStep(m: nat, p: nat, n: nat)
    requires m > 0
    ensures |Under(m, p, n + 1)| == |Under(m, p, n)| + (if n % m < p then 1 else 0)
  {
    if n % m < p {
      assert Under(m, p, n + 1) == Under(m, p, n) + {n};
    } else {
      assert Under(m, p, n + 1) == Under(m, p, n);
    }
  }

  lemma NoneUnder(m: nat, p: nat)
    requires m > 0
    ensures |Under(m, p, 0)| == Share(m, p, 0)
  {
    assert Under(m, p, 0) == {};
    DivModUnique(0, m, 0, 0);
  }

  lemma OneMoreUnder(m: nat, p: nat, n: nat)
    requires m > 0 && p <= m && |Under(m, p, n)| == Share(m, p, n)
    ensures |Under(m, p, n + 1)| == Share(m, p, n + 1)
  {
    UnderStep(m, p, n);
    ShareStep(m, p, n);
  }

  lemma {:induction false} UnderSize(m: nat, p: nat, n: nat)
    requires m > 0 && p <= m
    ensures |Under(m, p, n)| == Share(m, p, n)
  {
    if n == 0 {
      NoneUnder(m, p);
    } else {
      UnderSize(m, p, n - 1);
      OneMoreUnder(m, p, n - 1);
    }
  }

  ghost function Within(m: nat, a: nat, b: nat, n: nat): set<nat>
    requires m > 0
  {
    set v | v in Below(n) && a <= v % m < b
  }

  lemma WithinSize(m: nat, a: nat, b: nat, n: nat)
    requires m > 0 && a <= b <= m
    ensures |Within(m, a, b, n)| == Share(m, b, n) - Share(m, a, n)
  {
    UnderSize(m, a, n);
    UnderSize(m, b, n);
    assert Under(m, b, n) == Under(m, a, n) + Within(m, a, b, n);
    assert Under(m, a, n) !! Within(m, a, b, n);
  }

  // ---------- pairs of words by their offset ----------

  /** Pairs of words as single numbers: the low word is the remainder by 2^32, the high word the quotient. */
  lemma PairOf(v: nat, period: nat)
    requires period == TWO64 && v < period
    ensures v % TWO32 < TWO32 && v / TWO32 < TWO32 && v / TWO32 * TWO32 + v % TWO32 == v
  {
  }

  ghost predicate LeadsTo(devBlock: nat, t: ThreadConfig, next: int, v: nat, off: int) {
    NextOffset(devBlock, t, next, v % TWO32, v / TWO32).0 == off
  }

  /** The pairs for which a call hands out the given offset. */
  ghost function Pairs(devBlock: nat, t: ThreadConfig, next: int, off: int, period: nat): set<nat> {
    set v | v in Below(period) && LeadsTo(devBlock, t, next, v, off)
  }

  /** The part of the window that a block covers, as places counted from offset_low. */
  function Clamp(x: int, w: nat): nat { if x < 0 then 0 else if x > w then w else x }

  function From(t: ThreadConfig, off: int): nat
    requires Window(t) >= 0
  {
    Clamp(off - t.offsetLow, Window(t))
  }

  function To(t: ThreadConfig, devBlock: nat, off: int): nat
    requires Window(t) >= 0
  {
    Clamp(off + devBlock - t.offsetLow, Window(t))
  }

  lemma RoundsTo(x: int, off: int, devBlock: nat)
    requires devBlock > 0 && x >= 0 && off >= 0 && off % devBlock == 0
    ensures RoundDown(x, devBlock) == off <==> off <= x < off + devBlock
  {
    RoundDownMeaning(x, devBlock);
    if off <= x < off + devBlock {
      assert off == off / devBlock * devBlock;
      DivModUnique(x, devBlock, off / devBlock, x - off);
    }
  }

  /** A pair leads to a block exactly if its place lies in the part of the window the block covers. */
  lemma LeadsWhere(devBlock: nat, t: ThreadConfig, devSize: nat, next: int, v: nat, off: int, period: nat)
    requires Random(t, devSize, devBlock) && period == TWO64 && v < period && off >= 0 && off % devBlock == 0
    ensures LeadsTo(devBlock, t, next, v, off) <==> From(t, off) <= v % Window(t) < To(t, devBlock, off)
  {
    var w := Window(t);
    PairOf(v, period);
    RandomOffsetIs(t, devSize, devBlock, next, v % TWO32, v / TWO32, v / w, v % w);
    RoundsTo(t.offsetLow + v % w, off, devBlock);
  }

  lemma PairsAre(devBlock: nat, t: ThreadConfig, devSize: nat, next: int, off: int, period: nat)
    requires Random(t, devSize, devBlock) && period == TWO64 && off >= 0 && off % devBlock == 0
    ensures Pairs(devBlock, t, next, off, period) == Within(Window(t), From(t, off), To(t, devBlock, off), period)
  {
    forall v: nat | v < period
      ensures v in Pairs(devBlock, t, next, off, period)
         <==> v in Within(Window(t), From(t, off), To(t, devBlock, off), period)
    {
      LeadsWhere(devBlock, t, devSize, next, v, off, period);
    }
  }

  /** How many of all the pairs of words lead to a block, exactly. */
  lemma PairsSize(devBlock: nat, t: ThreadConfig, devSize: nat, next: int, off: int, period: nat)
    requires Random(t, devSize, devBlock) && period == TWO64 && off >= 0 && off % devBlock == 0
    ensures |Pairs(devBlock, t, next, off, period)|
         == Share(Window(t), To(t, devBlock, off), period) - Share(Window(t), From(t, off), period)
  {
    PairsAre(devBlock, t, devSize, next, off, period);
    WithinSize(Window(t), From(t, off), To(t, devBlock, off), period);
  }

  lemma ShareBetween(m: nat, a: nat, b: nat, n: nat, each: nat, c: nat)
    requires m > 0 && a <= b <= m && each == n / m && c == b - a
    ensures each * c <= Share(m, b, n) - Share(m, a, n) <= each * c + c
  {
    assert each * b - each * a == each * c;
  }

  /**
   The spread is even: a block that covers c places of the window is led to by at least c
   times the rounded-down share of one place, and by at most c pairs more.
   */
  lemma EvenSpread(devBlock: nat, t: ThreadConfig, devSize: nat, next: int, off: int, period: nat, each: nat, c: nat)
    requires Random(t, devSize, devBlock) && period == TWO64 && off >= 0 && off % devBlock == 0
    requires each == period / Window(t) && c == To(t, devBlock, off) - From(t, off)
    ensures each * c <= |Pairs(devBlock, t, next, off, period)| <= each * c + c
  {
    PairsSize(devBlock, t, devSize, next, off, period);
    ShareBetween(Window(t), From(t, off), To(t, devBlock, off), period, each, c);
  }

  /** With blocks of one byte: a place of the window is led to by the rounded-down share of the pairs, or one more. */
  lemma OnePlace(t: ThreadConfig, devSize: nat, next: int, x: int, period: nat, each: nat)
    requires Random(t, devSize, 1) && period == TWO64 && t.offsetLow <= x < t.offsetHigh && each == period / Window(t)
    ensures each <= |Pairs(1, t, next, x, period)| <= each + 1
  {
    EvenSpread(1, t, devSize, next, x, period, each, 1);
  }

  lemma ShareOfOne(w: int, period: nat)
    requires 0 < w < TWO63 && period == TWO64
    ensures period / w >= 1
  {
    TimesVersusQuotient(1, w, period);
  }

  /** So any two places are led to by equally many pairs, give or take one, and each by at least one. */
  lemma PlacesDifferByOne(t: ThreadConfig, devSize: nat, next: int, x: int, y: int, period: nat)
    requires Random(t, devSize, 1) && period == TWO64
    requires t.offsetLow <= x < t.offsetHigh && t.offsetLow <= y < t.offsetHigh
    ensures |Pairs(1, t, next, x, period)| - |Pairs(1, t, next, y, period)| <= 1
    ensures |Pairs(1, t, next, x, period)| >= 1
  {
    ShareOfOne(Window(t), period);
    OnePlace(t, devSize, next, x, period, period / Window(t));
    OnePlace(t, devSize, next, y, period, period / Window(t));
  }

  ghost predicate HandedOut(devBlock: nat, t: ThreadConfig, next: int, off: int, lo: nat, hi: nat) {
    lo < TWO32 && hi < TWO32 && NextOffset(devBlock, t, next, lo, hi).0 == off
  }

  /** The offsets a random thread hands out are exactly the blocks that meet its window. */
  lemma HandsOutExactly(devBlock: nat, t: ThreadConfig, devSize: nat, next: int, off: int)
    requires Random(t, devSize, devBlock)
    ensures (exists lo, hi :: HandedOut(devBlock, t, next, off, lo, hi))
       <==> off >= 0 && off % devBlock == 0 && off < t.offsetHigh && off + devBlock > t.offsetLow
  {
    if off >= 0 && off % devBlock == 0 && off < t.offsetHigh && off + devBlock > t.offsetLow {
      MeetsWindow(devBlock, t, devSize, next, off, TWO64);
    }
    if lo, hi :| HandedOut(devBlock, t, next, off, lo, hi) {
      HandedOutMeets(devBlock, t, devSize, next, off, lo, hi);
    }
  }

  lemma MeetsWindow(devBlock: nat, t: ThreadConfig, devSize: nat, next: int, off: int, period: nat)
    requires Random(t, devSize, devBlock) && period == TWO64
    requires off >= 0 && off % devBlock == 0 && off < t.offsetHigh && off + devBlock > t.offsetLow
    ensures exists lo, hi :: HandedOut(devBlock, t, next, off, lo, hi)
  {
    var v := From(t, off);
    DivModUnique(v, Window(t), 0, v);
    LeadsWhere(devBlock, t, devSize, next, v, off, period);
    PairOf(v, period);
    assert HandedOut(devBlock, t, next, off, v % TWO32, v / TWO32);
  }

  lemma HandedOutMeets(devBlock: nat, t: ThreadConfig, devSize: nat, next: int, off: int, lo: nat, hi: nat)
    requires Random(t, devSize, devBlock) && HandedOut(devBlock, t, next, off, lo, hi)
    ensures off >= 0 && off % devBlock == 0 && off < t.offsetHigh && off + devBlock > t.offsetLow
  {
    var q, k := QuotientOf(hi * TWO32 + lo, Window(t));
    RandomOffsetIs(t, devSize, devBlock, next, lo, hi, q, k);
    RoundDownMeaning(t.offsetLow + k, devBlock);
  }

  lemma QuotientOf(v: nat, w: int) returns (q: nat, k: nat)
    requires w > 0
    ensures v == q * w + k && k < w
  {
    q, k := v / w, v % w;
    Remainder(v, w);
  }
}
