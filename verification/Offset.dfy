/**
 The offset generator of kio_thread_next_offset in driver/kio_run.c, and the offset check
 that kio_io_submit applies to what it yields (driver/kio_io.h).
 */
module Offset {
  import opened Machine
  import opened Config

  /** Division and multiplication by the block size, as the driver rounds. */
  function RoundDown(x: int, devBlock: nat): int
    requires devBlock > 0
  {
    TruncDiv(x, devBlock) * devBlock
  }

  /** The sequential walk: where next_offset moves to. */
  function Walk(t: ThreadConfig, next: int): int {
    var moved := S64(next + t.offsetStride);
    var end := S64(moved + t.blockSize);
    if end > t.offsetHigh then (if t.offsetStride > 0 then t.offsetLow else end)
    else if end < t.offsetLow then (if t.offsetStride < 0 then end else t.offsetLow)
    else moved
  }

  /** One call: the offset handed out, and the new next_offset.  lo and hi are the two random words. */
  function NextOffset(devBlock: nat, t: ThreadConfig, next: int, lo: nat, hi: nat): (int, int) {
    if devBlock == 0 then (0, next)
    else
      var range := S64(t.offsetHigh - t.offsetLow);
      if range == 0 then (t.offsetLow, next)
      else if t.offsetRandom then
        (RoundDown(S64(t.offsetLow + U64(hi * TWO32 + lo) % U64(range)), devBlock), next)
      else (RoundDown(next, devBlock), Walk(t, next))
  }

  /** The check of kio_io_offset_is_valid. */
  predicate OffsetIsValid(off: int, size: nat, devSize: nat, devBlock: nat)
    requires devBlock > 0
  {
    U64(off + size) <= devSize && off % devBlock == 0
  }

  // ---------- rounding ----------

  lemma RoundDownMeaning(x: int, devBlock: nat)
    requires devBlock > 0 && x >= 0
    ensures 0 <= RoundDown(x, devBlock) <= x < RoundDown(x, devBlock) + devBlock
    ensures RoundDown(x, devBlock) % devBlock == 0
  {
    var q := x / devBlock;
    assert x == q * devBlock + x % devBlock;
    assert q * devBlock >= 0;
    DivModUnique(q * devBlock, devBlock, q, 0);
  }

  /** Rounding a value that is at least low stays at least low, for all such values, exactly when low is aligned. */
  lemma RoundDownAbove(x: int, low: int, devBlock: nat)
    requires devBlock > 0 && 0 <= low <= x
    ensures low % devBlock == 0 ==> RoundDown(x, devBlock) >= low
    ensures low % devBlock != 0 ==> RoundDown(low, devBlock) < low
  {
    RoundDownMeaning(low, devBlock);
    if low % devBlock == 0 {
      QuotientMonotone(low, x, devBlock);
      ProductMonotone(low / devBlock, x / devBlock, devBlock);
    }
  }

  /** The first multiple of the block size at or above a value. */
  function RoundUp(x: int, devBlock: nat): int
    requires devBlock > 0
  {
    (x + devBlock - 1) / devBlock * devBlock
  }

  /** Rounding falls below low exactly for what lies below low rounded up. */
  lemma RoundDownBelow(x: int, low: int, devBlock: nat)
    requires devBlock > 0 && 0 <= low && 0 <= x
    ensures RoundDown(x, devBlock) < low <==> x < RoundUp(low, devBlock)
  {
    var q, c := x / devBlock, (low + devBlock - 1) / devBlock;
    Remainder(x, devBlock);
    Remainder(low + devBlock - 1, devBlock);
    if q < c {
      ProductMonotone(q + 1, c, devBlock);
      assert (q + 1) * devBlock == q * devBlock + devBlock;
    } else {
      ProductMonotone(c, q, devBlock);
    }
  }

  // ---------- the walk without machine arithmetic ----------

  function WalkExactly(t: ThreadConfig, next: int): int {
    var end := next + t.offsetStride + t.blockSize;
    if end > t.offsetHigh || end < t.offsetLow then t.offsetLow else next + t.offsetStride
  }

  /** Where the walk may stand: the I/O there fits the device. */
  predicate Fits(t: ThreadConfig, devSize: nat, next: int) { 0 <= next <= devSize - t.blockSize }

  /** For an accepted thread the walk is exact, even where the signed sums wrap, and never leaves the device. */
  lemma WalkIsExact(t: ThreadConfig, devSize: nat, next: int)
    requires Normalised(t, devSize) && devSize < TWO63 && Fits(t, devSize, next)
    ensures Walk(t, next) == WalkExactly(t, next)
    ensures Fits(t, devSize, Walk(t, next))
  {
    WalkDoesNotWrap(t, devSize, next);
  }

  lemma WalkDoesNotWrap(t: ThreadConfig, devSize: nat, next: int)
    requires Normalised(t, devSize) && devSize < TWO63 && Fits(t, devSize, next)
    ensures Walk(t, next) == WalkExactly(t, next)
  {
  }

  /** next_offset after i sequential calls of a fresh worker, which starts at zero. */
  function Position(t: ThreadConfig, i: nat): int {
    if i == 0 then 0 else Walk(t, Position(t, i - 1))
  }

  lemma {:induction false} PositionFits(t: ThreadConfig, devSize: nat, i: nat)
    requires Normalised(t, devSize) && devSize < TWO63
    ensures Fits(t, devSize, Position(t, i))
  {
    if i == 0 {
    } else {
      PositionFits(t, devSize, i - 1);
      WalkIsExact(t, devSize, Position(t, i - 1));
    }
  }

  // ---------- the closed form ----------

  /** How many offsets one lap of the settled walk has. */
  function Lap(t: ThreadConfig): nat
    requires t.offsetStride > 0
  {
    if t.offsetHigh - t.offsetLow < t.blockSize then 1
    else (t.offsetHigh - t.offsetLow - t.blockSize) / t.offsetStride + 1
  }

  /** When the walk that starts at zero first reaches offset_low. */
  function Settle(t: ThreadConfig): nat
    requires t.offsetStride > 0
  {
    var first := t.offsetStride + t.blockSize;
    if t.offsetLow == 0 then 0
    else if first < t.offsetLow || first > t.offsetHigh then 1
    else (t.offsetHigh - t.blockSize) / t.offsetStride + 1
  }

  /** One step of the settled walk moves along the lap, or back to its start. */
  lemma LapStep(t: ThreadConfig, j: nat)
    requires 0 <= t.offsetLow && t.offsetStride > 0 && j < Lap(t)
    ensures WalkExactly(t, t.offsetLow + j * t.offsetStride)
         == t.offsetLow + (if j + 1 == Lap(t) then 0 else j + 1) * t.offsetStride
  {
    var stride := t.offsetStride;
    assert (j + 1) * stride == j * stride + stride;
    assert j * stride >= 0;
    TimesVersusQuotient(j + 1, stride, t.offsetHigh - t.offsetLow - t.blockSize);
  }

  /** One step of the walk before it settles. */
  lemma ApproachStep(t: ThreadConfig, i: nat)
    requires 0 <= t.offsetLow && t.offsetStride > 0 && i < Settle(t)
    ensures WalkExactly(t, i * t.offsetStride)
         == if i + 1 == Settle(t) then t.offsetLow else (i + 1) * t.offsetStride
  {
    var stride := t.offsetStride;
    assert (i + 1) * stride == i * stride + stride;
    assert i * stride >= 0;
    TimesVersusQuotient(i + 1, stride, t.offsetHigh - t.blockSize);
  }

  lemma NextInLap(i: nat, n: nat)
    requires n > 0
    ensures (i + 1) % n == if i % n + 1 == n then 0 else i % n + 1
  {
    var q, r := i / n, i % n;
    assert i == q * n + r;
    if r + 1 == n {
      assert i + 1 == (q + 1) * n + 0;
      DivModUnique(i + 1, n, q + 1, 0);
    } else {
      DivModUnique(i + 1, n, q, r + 1);
    }
  }

  /** The walk's position after i calls, by definition of its shape. */
  function ClosedForm(t: ThreadConfig, i: nat): int
    requires t.offsetStride > 0
  {
    if i < Settle(t) then i * t.offsetStride
    else t.offsetLow + (i - Settle(t)) % Lap(t) * t.offsetStride
  }

  lemma ApproachFollowsForm(t: ThreadConfig, i: nat)
    requires 0 <= t.offsetLow && t.offsetStride > 0 && i < Settle(t)
    ensures WalkExactly(t, ClosedForm(t, i)) == ClosedForm(t, i + 1)
  {
    ApproachStep(t, i);
    if i + 1 == Settle(t) { LapStart(t); }
  }

  lemma LapStart(t: ThreadConfig)
    requires t.offsetStride > 0
    ensures ClosedForm(t, Settle(t)) == t.offsetLow
  {
    assert 0 % Lap(t) == 0;
  }

  lemma LapFollowsForm(t: ThreadConfig, i: nat)
    requires 0 <= t.offsetLow && t.offsetStride > 0 && i >= Settle(t)
    ensures WalkExactly(t, ClosedForm(t, i)) == ClosedForm(t, i + 1)
  {
    var j := i - Settle(t);
    LapStep(t, j % Lap(t));
    NextInLap(j, Lap(t));
    assert i + 1 - Settle(t) == j + 1;
  }

  lemma ClosedFormStep(t: ThreadConfig, i: nat)
    requires 0 <= t.offsetLow && t.offsetStride > 0 && i > 0
    ensures WalkExactly(t, ClosedForm(t, i - 1)) == ClosedForm(t, i)
  {
    if i - 1 < Settle(t) { ApproachFollowsForm(t, i - 1); } else { LapFollowsForm(t, i - 1); }
  }

  /**
   The i-th sequential offset before rounding: multiples of the stride from zero until the
   walk settles, then laps low, low + stride, low + 2 stride, ... of fixed length.
   */
  lemma {:induction false} SequentialClosedForm(t: ThreadConfig, devSize: nat, i: nat)
    requires Normalised(t, devSize) && devSize < TWO63
    ensures Position(t, i) == ClosedForm(t, i)
  {
    if i == 0 {
      LapStart(t);
    } else {
      SequentialClosedForm(t, devSize, i - 1);
      PositionFits(t, devSize, i - 1);
      WalkFollowsForm(t, devSize, Position(t, i - 1), i);
    }
  }

  lemma WalkFollowsForm(t: ThreadConfig, devSize: nat, next: int, i: nat)
    requires Normalised(t, devSize) && devSize < TWO63 && Fits(t, devSize, next)
    requires i > 0 && next == ClosedForm(t, i - 1)
    ensures Walk(t, next) == ClosedForm(t, i)
  {
    WalkIsExact(t, devSize, next);
    ClosedFormStep(t, i);
  }

  /** The walk settles within high / stride + 1 calls, and from then on it stays at or above low. */
  lemma SettlesSoon(t: ThreadConfig, devSize: nat, i: nat)
    requires Normalised(t, devSize) && devSize < TWO63
    ensures Settle(t) <= t.offsetHigh / t.offsetStride + 1
    ensures Position(t, Settle(t)) == t.offsetLow
    ensures i >= Settle(t) ==> Position(t, i) >= t.offsetLow
  {
    SettleBound(t);
    SequentialClosedForm(t, devSize, Settle(t));
    LapStart(t);
    if i >= Settle(t) {
      SettledAbove(t, devSize, i);
    }
  }

  lemma SettleBound(t: ThreadConfig)
    requires t.offsetStride > 0 && t.offsetHigh >= 0
    ensures Settle(t) <= t.offsetHigh / t.offsetStride + 1
  {
    QuotientMonotone(t.offsetHigh - t.blockSize, t.offsetHigh, t.offsetStride);
    QuotientMonotone(0, t.offsetHigh, t.offsetStride);
  }

  lemma SettledAbove(t: ThreadConfig, devSize: nat, i: nat)
    requires Normalised(t, devSize) && devSize < TWO63 && i >= Settle(t)
    ensures Position(t, i) >= t.offsetLow
  {
    SequentialClosedForm(t, devSize, i);
    ProductMonotone(0, (i - Settle(t)) % Lap(t), t.offsetStride);
  }

  /** next_offset and the offsets handed out after n calls of a fresh sequential worker. */
  ghost function Run(devBlock: nat, t: ThreadConfig, n: nat): (int, seq<int>) {
    if n == 0 then (0, [])
    else
      var (next, offsets) := Run(devBlock, t, n - 1);
      var (off, next') := NextOffset(devBlock, t, next, 0, 0);
      (next', offsets + [off])
  }

  /** What an accepted sequential worker hands out is the closed form, rounded. */
  lemma {:induction false} RunIsClosedForm(devBlock: nat, t: ThreadConfig, devSize: nat, n: nat)
    requires Normalised(t, devSize) && devSize < TWO63 && devBlock > 0 && !t.offsetRandom
    ensures Run(devBlock, t, n).0 == Position(t, n)
    ensures |Run(devBlock, t, n).1| == n
    ensures forall i | 0 <= i < n :: Run(devBlock, t, n).1[i] == RoundDown(ClosedForm(t, i), devBlock)
  {
    if n == 0 {
    } else {
      RunIsClosedForm(devBlock, t, devSize, n - 1);
      SequentialClosedForm(t, devSize, n - 1);
      SequentialCall(devBlock, t, devSize, Position(t, n - 1));
    }
  }

  lemma SequentialCall(devBlock: nat, t: ThreadConfig, devSize: nat, next: int)
    requires Normalised(t, devSize) && devSize < TWO63 && devBlock > 0 && !t.offsetRandom
    ensures NextOffset(devBlock, t, next, 0, 0) == (RoundDown(next, devBlock), Walk(t, next))
  {
    assert S64(t.offsetHigh - t.offsetLow) == t.offsetHigh - t.offsetLow;
  }

  // ---------- safety ----------

  /** Before rounding, a random offset lies in [low, high). */
  lemma RandomInWindow(t: ThreadConfig, devSize: nat, rnd: nat)
    requires Normalised(t, devSize) && devSize < TWO63
    ensures S64(t.offsetHigh - t.offsetLow) == U64(t.offsetHigh - t.offsetLow) == t.offsetHigh - t.offsetLow
    ensures var x := S64(t.offsetLow + rnd % (t.offsetHigh - t.offsetLow));
            x == t.offsetLow + rnd % (t.offsetHigh - t.offsetLow) && t.offsetLow <= x < t.offsetHigh
  {
    var r := rnd % (t.offsetHigh - t.offsetLow);
    assert 0 <= r < t.offsetHigh - t.offsetLow;
  }

  /** What a call hands out is a place inside the device, rounded down. */
  lemma OffsetIsRounded(t: ThreadConfig, devSize: nat, devBlock: nat, next: int, lo: nat, hi: nat) returns (x: int)
    requires Normalised(t, devSize) && devSize < TWO63 && devBlock > 0 && Fits(t, devSize, next)
    ensures Fits(t, devSize, x)
    ensures NextOffset(devBlock, t, next, lo, hi)
         == (RoundDown(x, devBlock), if t.offsetRandom then next else Walk(t, next))
  {
    var rnd := U64(hi * TWO32 + lo);
    RandomInWindow(t, devSize, rnd);
    x := if t.offsetRandom then t.offsetLow + rnd % (t.offsetHigh - t.offsetLow) else next;
  }

  lemma RoundedIsValid(x: int, devSize: nat, devBlock: nat)
    requires devBlock > 0 && devSize < TWO63 && 0 <= x <= devSize - PAGE_SIZE
    ensures 0 <= RoundDown(x, devBlock) <= devSize - PAGE_SIZE
    ensures OffsetIsValid(RoundDown(x, devBlock), PAGE_SIZE, devSize, devBlock)
  {
    RoundDownMeaning(x, devBlock);
  }

  /**
   Every offset an accepted thread of 4096-byte blocks generates, random or sequential, is
   non-negative, aligned, inside the device, and passes the check of kio_io_submit.
   */
  lemma OffsetSafety(t: ThreadConfig, devSize: nat, devBlock: nat, next: int, lo: nat, hi: nat)
    requires Normalised(t, devSize) && devSize < TWO63 && devBlock > 0
    requires t.blockSize == PAGE_SIZE && Fits(t, devSize, next)
    ensures var (off, next') := NextOffset(devBlock, t, next, lo, hi);
            && 0 <= off <= devSize - PAGE_SIZE
            && OffsetIsValid(off, PAGE_SIZE, devSize, devBlock)
            && Fits(t, devSize, next')
  {
    var x := OffsetIsRounded(t, devSize, devBlock, next, lo, hi);
    RoundedIsValid(x, devSize, devBlock);
    WalkIsExact(t, devSize, next);
  }

  /** No random offset falls below offset_low exactly when offset_low is aligned. */
  lemma RandomStaysAboveLow(t: ThreadConfig, devSize: nat, devBlock: nat, next: int)
    requires Normalised(t, devSize) && devSize < TWO63 && devBlock > 0 && t.offsetRandom
    ensures (forall lo: nat, hi: nat | lo < TWO32 && hi < TWO32 ::
               NextOffset(devBlock, t, next, lo, hi).0 >= t.offsetLow)
       <==> t.offsetLow % devBlock == 0
  {
    if t.offsetLow % devBlock == 0 {
      forall lo: nat, hi: nat | lo < TWO32 && hi < TWO32
        ensures NextOffset(devBlock, t, next, lo, hi).0 >= t.offsetLow
      {
        var rnd := U64(hi * TWO32 + lo);
        RandomInWindow(t, devSize, rnd);
        RoundDownAbove(t.offsetLow + rnd % (t.offsetHigh - t.offsetLow), t.offsetLow, devBlock);
      }
    } else {
      RandomInWindow(t, devSize, 0);
      RoundDownAbove(t.offsetLow, t.offsetLow, devBlock);
      assert U64(0 * TWO32 + 0) == 0;
      assert NextOffset(devBlock, t, next, 0, 0).0 == RoundDown(t.offsetLow, devBlock);
    }
  }

  /** No settled sequential offset falls below offset_low exactly when offset_low is aligned. */
  lemma SettledStaysAboveLow(t: ThreadConfig, devSize: nat, devBlock: nat)
    requires Normalised(t, devSize) && devSize < TWO63 && devBlock > 0
    ensures (forall i: nat | i >= Settle(t) :: RoundDown(Position(t, i), devBlock) >= t.offsetLow)
       <==> t.offsetLow % devBlock == 0
  {
    SettlesSoon(t, devSize, Settle(t));
    RoundDownAbove(t.offsetLow, t.offsetLow, devBlock);
    if t.offsetLow % devBlock == 0 {
      forall i: nat | i >= Settle(t) ensures RoundDown(Position(t, i), devBlock) >= t.offsetLow {
        SettlesSoon(t, devSize, i);
        RoundDownAbove(Position(t, i), t.offsetLow, devBlock);
      }
    }
  }

  /**
   Before the walk settles it is at multiples of the stride, and what it hands out there lies
   below offset_low exactly where the multiple is below offset_low rounded up.
   */
  lemma UnsettledFallsBelow(t: ThreadConfig, devSize: nat, devBlock: nat, i: nat)
    requires Normalised(t, devSize) && devSize < TWO63 && devBlock > 0 && i < Settle(t)
    ensures Position(t, i) == i * t.offsetStride
    ensures RoundDown(Position(t, i), devBlock) < t.offsetLow <==> i * t.offsetStride < RoundUp(t.offsetLow, devBlock)
  {
    SequentialClosedForm(t, devSize, i);
    ProductMonotone(0, i, t.offsetStride);
    RoundDownBelow(i * t.offsetStride, t.offsetLow, devBlock);
  }

  /** No offset of a fresh sequential worker falls below offset_low exactly when offset_low is zero. */
  lemma SequentialStaysAboveLow(t: ThreadConfig, devSize: nat, devBlock: nat)
    requires Normalised(t, devSize) && devSize < TWO63 && devBlock > 0
    ensures (forall i: nat :: RoundDown(Position(t, i), devBlock) >= t.offsetLow) <==> t.offsetLow == 0
  {
    assert RoundDown(Position(t, 0), devBlock) == 0;
    if t.offsetLow == 0 {
      forall i: nat ensures RoundDown(Position(t, i), devBlock) >= t.offsetLow {
        PositionFits(t, devSize, i);
        RoundDownMeaning(Position(t, i), devBlock);
      }
    }
  }

  // ---------- what no accepted thread comes to ----------

  /** Without a device there is no offset; an empty window hands out its only place, unrounded; neither moves the walk. */
  lemma DegenerateOffsets(devBlock: nat, t: ThreadConfig, next: int, lo: nat, hi: nat)
    ensures devBlock == 0 ==> NextOffset(devBlock, t, next, lo, hi) == (0, next)
    ensures devBlock > 0 && t.offsetLow == t.offsetHigh ==> NextOffset(devBlock, t, next, lo, hi) == (t.offsetLow, next)
  {
  }

  /** A negative stride walks down, and skips one block where it would leave the window. */
  lemma BackwardWalk(t: ThreadConfig, next: int)
    requires t.offsetStride < 0 && t.offsetLow <= t.offsetHigh
    requires IsS64(next + t.offsetStride) && IsS64(next + t.offsetStride + t.blockSize)
    ensures var end := next + t.offsetStride + t.blockSize;
            Walk(t, next) == if t.offsetLow <= end <= t.offsetHigh then next + t.offsetStride else end
  {
  }
}
