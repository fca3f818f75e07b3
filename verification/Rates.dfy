/** The rates the statistics print: how the summary's relate to the threads', and when they are true. */
module Rates {
  import opened Machine
  import opened Stats

  // ---------- the summary's rates ----------

  function One(r: ThreadResult): int { 1 }

  /** I/Os times nanoseconds per second: what iops divides by the runtime. */
  function OfWork(r: ThreadResult): int { NSEC_PER_SEC * r.completed }

  function TrueIops(r: ThreadResult): int
    requires r.runtime > 0
  {
    OfWork(r) / r.runtime
  }

  lemma {:induction false} CountThreads(rs: seq<ThreadResult>)
    ensures Sum(rs, One) == |rs|
  {
    if rs == [] {
    } else {
      CountThreads(rs[..|rs| - 1]);
    }
  }

  lemma {:induction false} SumOfWork(rs: seq<ThreadResult>)
    ensures Sum(rs, OfWork) == NSEC_PER_SEC * Sum(rs, OfCompleted)
  {
    if rs == [] {
    } else {
      SumOfWork(rs[..|rs| - 1]);
    }
  }

  /** The iops product of any 32-bit count is exact; the result is cut to 32 bits exactly when it does not fit. */
  lemma IopsExact(count: nat, runtime: nat)
    requires count < TWO32 && runtime > 0
    ensures Iops(count, runtime) == NSEC_PER_SEC * count / runtime
       <==> NSEC_PER_SEC * count / runtime < TWO32
  {
    assert NSEC_PER_SEC * count == count * NSEC_PER_SEC < TWO64;
    assert U64(count * NSEC_PER_SEC) == count * NSEC_PER_SEC;
  }

  /** Summary bandwidth: an average of the threads' bandwidths, so between the smallest and the largest. */
  lemma BandwidthWithin(rs: seq<ThreadResult>, low: nat, high: nat)
    requires rs != [] && forall r | r in rs :: low <= OfBps(r) <= high
    ensures low <= Sum(rs, OfBps) / |rs| <= high
  {
    CountThreads(rs);
    SumAtLeast(rs, OfBps, One, low);
    TimesVersusQuotient(low, |rs|, Sum(rs, OfBps));
    SumLess(rs, OfBps, One, high + 1);
    assert rs[0] in rs;
    TimesVersusQuotient(high + 1, |rs|, Sum(rs, OfBps));
  }

  /** All the work over all the runtime lies between the smallest and the largest thread rate. */
  lemma WorkWithin(rs: seq<ThreadResult>, low: nat, high: nat)
    requires rs != []
    requires forall r | r in rs :: r.runtime > 0 && low <= TrueIops(r) <= high
    ensures Sum(rs, OfRuntime) > 0
    ensures low * Sum(rs, OfRuntime) <= Sum(rs, OfWork) < (high + 1) * Sum(rs, OfRuntime)
  {
    forall r | r in rs ensures low * OfRuntime(r) <= OfWork(r) < (high + 1) * OfRuntime(r) {
      TimesVersusQuotient(low, r.runtime, OfWork(r));
      TimesVersusQuotient(high + 1, r.runtime, OfWork(r));
    }
    assert rs[0] in rs;
    SumAtLeast(rs, OfWork, OfRuntime, low);
    SumLess(rs, OfWork, OfRuntime, high + 1);
    PositiveRuntime(rs);
  }

  lemma PositiveRuntime(rs: seq<ThreadResult>)
    requires rs != [] && forall r | r in rs :: r.runtime > 0
    ensures Sum(rs, OfRuntime) > 0
  {
    var init := rs[..|rs| - 1];
    assert rs[|rs| - 1] in rs;
    SumNonNegative(init, OfRuntime);
  }

  lemma Regroup(t: int, runtime: int, n: int)
    ensures t * (runtime * n) == (t * n) * runtime
  {
  }

  lemma DividedAtLeast(work: int, runtime: int, n: int, divisor: int, low: nat)
    requires runtime > 0 && n > 0 && divisor == runtime * n > 0 && low * runtime <= work
    ensures low / n <= work / divisor
  {
    var t := low / n;
    Remainder(low, n);
    ProductMonotone(t * n, low, runtime);
    Regroup(t, runtime, n);
    TimesVersusQuotient(t, divisor, work);
  }

  lemma DividedAtMost(work: int, runtime: int, n: int, divisor: int, high: nat)
    requires runtime > 0 && n > 0 && divisor == runtime * n > 0 && work < (high + 1) * runtime
    ensures work / divisor <= high / n
  {
    var u := high / n + 1;
    Remainder(high, n);
    assert u * n == high / n * n + n;
    ProductMonotone(high + 1, u * n, runtime);
    Regroup(u, runtime, n);
    TimesVersusQuotient(u, divisor, work);
  }

  /** Dividing a rate once more by n floors its bounds by n. */
  lemma DividedFurther(work: int, runtime: int, n: int, low: nat, high: nat) returns (divisor: nat)
    requires runtime > 0 && n > 0 && low * runtime <= work < (high + 1) * runtime
    ensures divisor == runtime * n > 0
    ensures 0 <= low / n <= work / divisor <= high / n
  {
    ProductMonotone(1, n, runtime);
    divisor := runtime * n;
    SmallQuotient(low, n);
    DividedAtLeast(work, runtime, n, divisor, low);
    DividedAtMost(work, runtime, n, divisor, high);
  }

  /** Nothing the summary's rates are computed from leaves its field. */
  ghost predicate RatesFit(rs: seq<ThreadResult>) {
    && SumsFit(rs)
    && rs != []
    && (forall r | r in rs :: r.runtime > 0 && TrueIops(r) < TWO32)
    && Sum(rs, OfRuntime) * |rs| < TWO64
  }

  lemma SummaryOf(st: Totals, divisor: nat)
    requires st.completed < TWO32 && st.runtimeTotal > 0 && st.numThreads > 0
    requires divisor == st.runtimeTotal * st.numThreads && 0 < divisor < TWO64
    ensures Reportable(st)
    ensures SummaryLine(st).bps == st.bpsTotal / st.numThreads
    ensures SummaryLine(st).iops == U32(NSEC_PER_SEC * st.completed / divisor)
  {
    assert Divisor(st) == divisor by { SmallU64(divisor); }
    SmallU64(st.completed * NSEC_PER_SEC);
    assert U32(st.completed) == st.completed;
  }

  lemma SmallU64(x: nat)
    requires x < TWO64
    ensures U64(x) == x
  {
  }

  lemma SummaryRatesMeaning(rs: seq<ThreadResult>, divisor: nat)
    requires RatesFit(rs) && Sum(rs, OfRuntime) > 0
    requires divisor == Sum(rs, OfRuntime) * |rs| && divisor > 0
    ensures Reportable(Accumulate(rs))
    ensures SummaryLine(Accumulate(rs)).bps == Sum(rs, OfBps) / |rs|
    ensures SummaryLine(Accumulate(rs)).iops == U32(Sum(rs, OfWork) / divisor)
  {
    AccumulateIsExact(rs);
    SumOfWork(rs);
    SummaryOf(Accumulate(rs), divisor);
  }

  lemma ThreadRates(rs: seq<ThreadResult>, r: ThreadResult)
    requires RatesFit(rs) && r in rs
    ensures ThreadLine(r).iops == TrueIops(r) && ThreadLine(r).bps == OfBps(r)
  {
    CompletedFits(rs, r);
    IopsExact(r.completed, r.runtime);
  }

  lemma SummaryIops(rs: seq<ThreadResult>, low: nat, high: nat)
    requires RatesFit(rs) && high < TWO32
    requires forall r | r in rs :: low <= TrueIops(r) <= high
    ensures Reportable(Accumulate(rs))
    ensures low / |rs| <= SummaryLine(Accumulate(rs)).iops <= high / |rs|
  {
    WorkWithin(rs, low, high);
    var runtime, work := Sum(rs, OfRuntime), Sum(rs, OfWork);
    var divisor := DividedFurther(work, runtime, |rs|, low, high);
    SummaryRatesMeaning(rs, divisor);
    Untruncated(work / divisor, high, |rs|);
  }

  lemma Untruncated(q: int, high: nat, n: int)
    requires n > 0 && 0 <= q <= high / n && high < TWO32
    ensures U32(q) == q
  {
    SmallQuotient(high, n);
  }

  lemma SummaryBandwidth(rs: seq<ThreadResult>, low: nat, high: nat)
    requires RatesFit(rs) && Sum(rs, OfRuntime) > 0
    requires forall r | r in rs :: low <= OfBps(r) <= high
    ensures Reportable(Accumulate(rs))
    ensures low <= SummaryLine(Accumulate(rs)).bps <= high
  {
    var divisor := Sum(rs, OfRuntime) * |rs|;
    ProductMonotone(1, |rs|, Sum(rs, OfRuntime));
    SummaryRatesMeaning(rs, divisor);
    BandwidthWithin(rs, low, high);
  }

  /**
   The summary's bandwidth lies between the threads' bandwidths; its iops, which the driver
   divides by the number of threads on top of the summed runtime, lies between the threads'
   iops divided by their number.
   */
  lemma SummaryRates(rs: seq<ThreadResult>, low: Line, high: Line)
    requires RatesFit(rs) && high.iops < TWO32
    requires forall r | r in rs ::
               && low.bps <= ThreadLine(r).bps <= high.bps
               && low.iops <= ThreadLine(r).iops <= high.iops
    ensures Reportable(Accumulate(rs))
    ensures low.bps <= SummaryLine(Accumulate(rs)).bps <= high.bps
    ensures low.iops / |rs| <= SummaryLine(Accumulate(rs)).iops <= high.iops / |rs|
  {
    forall r | r in rs ensures ThreadLine(r).iops == TrueIops(r) && ThreadLine(r).bps == OfBps(r) {
      ThreadRates(rs, r);
    }
    PositiveRuntime(rs);
    SummaryIops(rs, low.iops, high.iops);
    SummaryBandwidth(rs, low.bps, high.bps);
  }

  lemma SmallQuotient(x: nat, n: int)
    requires n > 0
    ensures 0 <= x / n <= x
  {
    Remainder(x, n);
    ProductMonotone(1, n, x + 1);
    TimesVersusQuotient(x + 1, n, x);
  }

  lemma {:induction false} CompletedFits(rs: seq<ThreadResult>, r: ThreadResult)
    requires r in rs && Sum(rs, OfCompleted) < TWO32
    ensures r.completed < TWO32
  {
    var init, last := rs[..|rs| - 1], rs[|rs| - 1];
    SumNonNegative(init, OfCompleted);
    if r != last {
      assert r in init;
      CompletedFits(init, r);
    }
  }

  // ---------- when the bandwidth is true ----------

  /** The largest count whose byte-nanosecond product, with 4096-byte blocks, fits 64 bits. */
  const LARGEST_EXACT_COUNT: nat := 4503599

  function Product(count: nat): nat { count * 4096 * NSEC_PER_SEC }

  lemma ProductFits(count: nat)
    ensures Product(count) < TWO64 <==> count <= LARGEST_EXACT_COUNT
  {
  }

  lemma WrappedIsSmaller(count: nat)
    requires count > LARGEST_EXACT_COUNT
    ensures U64(Product(count)) <= Product(count) - TWO64
  {
    ProductFits(count);
  }

  /** The bytes per second are the true floor exactly up to that count; from the next one on they are too small. */
  lemma BandwidthExact(count: nat, runtime: nat)
    requires 0 < runtime < TWO64
    ensures Bps(count, 4096, runtime) == Product(count) / runtime <==> count <= LARGEST_EXACT_COUNT
  {
    ProductFits(count);
    if count > LARGEST_EXACT_COUNT {
      WrappedIsSmaller(count);
      var p, q := Product(count), Product(count) / runtime;
      Remainder(p, runtime);
      TimesVersusQuotient(q, runtime, U64(p));
    }
  }

  /** What is printed: bytes per second as megabytes with three decimals, that is, in thousandths. */
  function PrintedBandwidth(bps: nat): nat { bps / 1000000 * 1000 + bps / 1000 % 1000 }

  lemma PrintedIsThousandths(bps: nat)
    ensures PrintedBandwidth(bps) == bps / 1000
  {
  }

  /** The true bandwidth in thousandths of a megabyte per second, rounded down. */
  function TrueBandwidth(count: nat, runtime: nat): nat
    requires runtime > 0
  {
    count * 4096 * 1000000 / runtime
  }

  lemma ThousandthsOfQuotient(x: nat, d: int)
    requires d > 0
    ensures 1000 * x / d / 1000 == x / d
  {
    var t := x / d;
    Remainder(x, d);
    assert (1000 * t) * d == 1000 * (t * d);
    TimesVersusQuotient(1000 * t, d, 1000 * x);
    assert (1000 * t + 1000) * d == 1000 * (t * d) + 1000 * d;
    TimesVersusQuotient(1000 * t + 1000, d, 1000 * x);
  }

  /**
   The printed megabytes per second of a thread are the true floor exactly when it completed
   at most 4503599 I/Os, for every runtime the printed precision can resolve.
   */
  lemma PrintedBandwidthExact(count: nat, runtime: nat)
    requires 0 < runtime && 1000 * runtime <= TWO64
    ensures PrintedBandwidth(Bps(count, 4096, runtime)) == TrueBandwidth(count, runtime)
       <==> count <= LARGEST_EXACT_COUNT
  {
    TrueBandwidthMeaning(count, runtime);
    PrintedIsThousandths(Bps(count, 4096, runtime));
    if count > LARGEST_EXACT_COUNT {
      WrapShows(count, runtime);
    } else {
      BandwidthExact(count, runtime);
    }
  }

  lemma TrueBandwidthMeaning(count: nat, runtime: nat)
    requires runtime > 0
    ensures TrueBandwidth(count, runtime) == Product(count) / runtime / 1000
  {
    var x := count * 4096 * 1000000;
    assert Product(count) == 1000 * x;
    ThousandthsOfQuotient(x, runtime);
  }

  lemma WrapShows(count: nat, runtime: nat)
    requires 0 < runtime && 1000 * runtime <= TWO64 && count > LARGEST_EXACT_COUNT
    ensures U64(Product(count)) / runtime / 1000 < Product(count) / runtime / 1000
  {
    WrappedIsSmaller(count);
    var p, q := Product(count), Product(count) / runtime;
    Remainder(p, runtime);
    assert (q - 999) * runtime == q * runtime - 999 * runtime;
    TimesVersusQuotient(q - 999, runtime, U64(p));
  }

  /** For a whole run: every thread's printed bandwidth is true exactly when no thread completed more. */
  lemma RunBandwidthExact(rs: seq<ThreadResult>)
    requires forall r | r in rs :: r.blockSize == 4096 && 0 < r.runtime && 1000 * r.runtime <= TWO64
    ensures (forall r | r in rs :: PrintedBandwidth(ThreadLine(r).bps) == TrueBandwidth(r.completed, r.runtime))
       <==> (forall r | r in rs :: r.completed <= LARGEST_EXACT_COUNT)
  {
    forall r | r in rs
      ensures PrintedBandwidth(ThreadLine(r).bps) == TrueBandwidth(r.completed, r.runtime)
         <==> r.completed <= LARGEST_EXACT_COUNT
    {
      PrintedBandwidthExact(r.completed, r.runtime);
    }
  }
}
