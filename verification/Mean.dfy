/** The summary's bandwidth against the mean of the threads' true bandwidths. */
module Mean {
  import opened Machine
  import opened Stats
  import opened Rates

  /** A thread's true bandwidth in bytes per second, rounded down, for blocks of 4096 bytes. */
  function OfTrueBps(r: ThreadResult): int { if r.runtime == 0 then 0 else Product(r.completed) / r.runtime }

  /** Threads of 4096-byte blocks whose run is short enough for the printed precision to show a wrapped product. */
  ghost predicate Resolved(rs: seq<ThreadResult>) {
    forall r | r in rs :: r.blockSize == 4096 && 0 < r.runtime && (1000 * |rs|) * r.runtime <= TWO64
  }

  // ---------- sums ----------

  lemma {:induction false} SumAtMost(rs: seq<ThreadResult>, f: ThreadResult -> int, g: ThreadResult -> int)
    requires forall r | r in rs :: f(r) <= g(r)
    ensures Sum(rs, f) <= Sum(rs, g)
  {
    if rs == [] {
    } else {
      SumAtMost(rs[..|rs| - 1], f, g);
    }
  }

  /** If one summand is smaller by d, so is the sum. */
  lemma {:induction false} SumDrops(rs: seq<ThreadResult>, f: ThreadResult -> int, g: ThreadResult -> int, k: nat, d: int)
    requires k < |rs| && f(rs[k]) <= g(rs[k]) - d
    requires forall r | r in rs :: f(r) <= g(r)
    ensures Sum(rs, f) <= Sum(rs, g) - d
  {
    var init := rs[..|rs| - 1];
    if k == |rs| - 1 {
      SumAtMost(init, f, g);
    } else {
      SumDrops(init, f, g, k, d);
    }
  }

  // ---------- one thread ----------

  lemma NotTooMuch(r: ThreadResult)
    requires r.blockSize == 4096 && 0 < r.runtime < TWO64
    ensures OfBps(r) <= OfTrueBps(r)
    ensures r.completed <= LARGEST_EXACT_COUNT ==> OfBps(r) == OfTrueBps(r)
  {
    BandwidthExact(r.completed, r.runtime);
    var p := Product(r.completed);
    assert U64(p) <= p;
    QuotientMonotone(U64(p), p, r.runtime);
  }

  lemma LosesMuch(r: ThreadResult, d: nat)
    requires r.blockSize == 4096 && 0 < r.runtime && d * r.runtime <= TWO64
    requires r.completed > LARGEST_EXACT_COUNT
    ensures OfBps(r) <= OfTrueBps(r) - d
  {
    WrappedIsSmaller(r.completed);
    var p, q := Product(r.completed), Product(r.completed) / r.runtime;
    LosesQuotient(U64(p), p, r.runtime, d);
  }

  lemma LosesQuotient(small: nat, large: nat, runtime: int, d: nat)
    requires runtime > 0 && small <= large - d * runtime
    ensures small / runtime <= large / runtime - d
  {
    var q := large / runtime;
    Remainder(large, runtime);
    assert (q + 1 - d) * runtime == q * runtime + runtime - d * runtime;
    TimesVersusQuotient(q + 1 - d, runtime, small);
  }

  // ---------- the summary ----------

  lemma SumIsTrue(rs: seq<ThreadResult>)
    requires forall r | r in rs :: OfBps(r) == OfTrueBps(r)
    ensures Sum(rs, OfBps) == Sum(rs, OfTrueBps)
  {
    SumAtMost(rs, OfBps, OfTrueBps);
    SumAtMost(rs, OfTrueBps, OfBps);
  }

  lemma MeanDrops(s: int, t: int, n: int)
    requires n > 0 && s <= t - 1000 * n
    ensures s / n / 1000 < t / n / 1000
  {
    var q := t / n;
    Remainder(t, n);
    assert (q - 999) * n == q * n - 999 * n;
    TimesVersusQuotient(q - 999, n, s);
  }

  lemma RuntimeFits(n: nat, runtime: nat)
    requires n > 0 && 0 < runtime && (1000 * n) * runtime <= TWO64
    ensures runtime < TWO64
  {
    ProductMonotone(1000, 1000 * n, runtime);
  }

  lemma PrintedMean(bps: nat, total: int, n: int)
    requires n > 0 && bps == total / n
    ensures PrintedBandwidth(bps) == total / n / 1000
  {
    PrintedIsThousandths(bps);
  }

  /**
   The printed megabytes per second of the summary are the mean of the threads' true bandwidths,
   rounded down, exactly when no thread completed more than 4503599 I/Os.
   */
  lemma SummaryBandwidthExact(rs: seq<ThreadResult>)
    requires RatesFit(rs) && Resolved(rs)
    ensures Reportable(Accumulate(rs))
    ensures PrintedBandwidth(SummaryLine(Accumulate(rs)).bps) == Sum(rs, OfTrueBps) / |rs| / 1000
       <==> (forall r | r in rs :: r.completed <= LARGEST_EXACT_COUNT)
  {
    PositiveRuntime(rs);
    ProductMonotone(1, |rs|, Sum(rs, OfRuntime));
    SummaryRatesMeaning(rs, Sum(rs, OfRuntime) * |rs|);
    MeanExact(rs);
    PrintedMean(SummaryLine(Accumulate(rs)).bps, Sum(rs, OfBps), |rs|);
  }

  lemma MeanExact(rs: seq<ThreadResult>)
    requires rs != [] && Resolved(rs)
    ensures Sum(rs, OfBps) / |rs| / 1000 == Sum(rs, OfTrueBps) / |rs| / 1000
       <==> (forall r | r in rs :: r.completed <= LARGEST_EXACT_COUNT)
  {
    forall r | r in rs
      ensures OfBps(r) <= OfTrueBps(r) && (r.completed <= LARGEST_EXACT_COUNT ==> OfBps(r) == OfTrueBps(r))
    {
      RuntimeFits(|rs|, r.runtime);
      NotTooMuch(r);
    }
    if k :| 0 <= k < |rs| && rs[k].completed > LARGEST_EXACT_COUNT {
      LosesMuch(rs[k], 1000 * |rs|);
      SumDrops(rs, OfBps, OfTrueBps, k, 1000 * |rs|);
      MeanDrops(Sum(rs, OfBps), Sum(rs, OfTrueBps), |rs|);
      assert rs[k] in rs;
    } else {
      SumIsTrue(rs);
    }
  }

  // ---------- against the mean without any rounding ----------

  ghost function TrueRate(r: ThreadResult): real
    requires r.runtime > 0
  {
    Product(r.completed) as real / r.runtime as real
  }

  ghost function RateSum(rs: seq<ThreadResult>): real
    requires forall r | r in rs :: r.runtime > 0
  {
    if rs == [] then 0.0 else RateSum(rs[..|rs| - 1]) + TrueRate(rs[|rs| - 1])
  }

  lemma FloorOfQuotient(a: nat, d: nat)
    requires d > 0
    ensures (a / d) as real <= a as real / d as real < (a / d) as real + 1.0
  {
    var q := a / d;
    Remainder(a, d);
    RealQuotient(a as real, d as real, q as real, 1.0);
  }

  lemma RealQuotient(a: real, d: real, q: real, w: real)
    requires d > 0.0 && q * d <= a < q * d + w * d
    ensures q <= a / d < q + w
  {
    var x := a / d;
    assert x * d == a;
    RealOrder(x, q, d);
    RealOrder(x, q + w, d);
    assert (q + w) * d == q * d + w * d;
  }

  lemma RealOrder(x: real, y: real, d: real)
    requires d > 0.0
    ensures x < y <==> x * d < y * d
  {
    var z := y - x;
    assert z * d == y * d - x * d;
    assert z > 0.0 <==> z * d > 0.0;
  }

  lemma {:induction false} FloorsOfSum(rs: seq<ThreadResult>)
    requires forall r | r in rs :: r.runtime > 0
    ensures Sum(rs, OfTrueBps) as real <= RateSum(rs) <= Sum(rs, OfTrueBps) as real + |rs| as real
    ensures rs != [] ==> RateSum(rs) < Sum(rs, OfTrueBps) as real + |rs| as real
  {
    if rs == [] {
    } else {
      var last := rs[|rs| - 1];
      FloorsOfSum(rs[..|rs| - 1]);
      FloorOfQuotient(Product(last.completed), last.runtime);
    }
  }

  /** Rounding each thread and then the mean loses less than two bytes per second of the true mean. */
  lemma MeanWithinRounding(rs: seq<ThreadResult>)
    requires rs != [] && forall r | r in rs :: r.runtime > 0
    ensures var mean := Sum(rs, OfTrueBps) / |rs|;
            mean as real <= RateSum(rs) / |rs| as real < mean as real + 2.0
  {
    FloorsOfSum(rs);
    RoundedTwice(RateSum(rs), Sum(rs, OfTrueBps), |rs|);
  }

  lemma RoundedTwice(rate: real, t: int, n: nat)
    requires n > 0 && t as real <= rate < t as real + n as real
    ensures (t / n) as real <= rate / n as real < (t / n) as real + 2.0
  {
    Remainder(t, n);
    var q := t / n;
    assert (q * n) as real == q as real * n as real;
    RealQuotient(rate, n as real, q as real, 2.0);
  }
}
