/** When the summary's iops is the rate of the run, and when the summary can be computed at all. */
module Summary {
  import opened Machine
  import opened Stats
  import opened Rates

  // ---------- the rate ----------

  lemma QuotientOfQuotient(w: nat, r: int, n: int, divisor: int)
    requires r > 0 && n > 0 && divisor == r * n > 0
    ensures w / divisor == w / r / n
  {
    var q := w / r;
    Remainder(w, r);
    assert (q + 1) * r == q * r + r;
    DividedAtLeast(w, r, n, divisor, q);
    DividedAtMost(w, r, n, divisor, q);
  }

  lemma UnchangedExactly(x: nat, n: int)
    requires n > 0
    ensures x == x / n <==> n == 1 || x == 0
  {
    if n > 1 && x > 0 {
      Remainder(x, n);
      ProductMonotone(2, n, x);
      TimesVersusQuotient(x, n, x);
    }
  }

  lemma ZeroExactly(w: nat, r: int)
    requires r > 0
    ensures w / r == 0 <==> w < r
  {
    TimesVersusQuotient(1, r, w);
    Remainder(w, r);
  }

  /** The summary's iops is the rate of the whole run, divided once more by the number of threads. */
  lemma SummaryIopsIs(rs: seq<ThreadResult>)
    requires RatesFit(rs)
    ensures Sum(rs, OfRuntime) > 0 && Sum(rs, OfWork) >= 0 && Reportable(Accumulate(rs))
    ensures SummaryLine(Accumulate(rs)).iops == Sum(rs, OfWork) / Sum(rs, OfRuntime) / |rs|
  {
    WorkWithin(rs, 0, TWO32 - 1);
    var work, runtime := Sum(rs, OfWork), Sum(rs, OfRuntime);
    var divisor := DividedFurther(work, runtime, |rs|, 0, TWO32 - 1);
    SummaryRatesMeaning(rs, divisor);
    Untruncated(work / divisor, TWO32 - 1, |rs|);
    QuotientOfQuotient(work, runtime, |rs|, divisor);
  }

  /**
   The summary's iops is the rate of the run, all its I/Os over all its runtime, exactly for a
   run of one thread, or of less than one I/O per second.
   */
  lemma SummaryIopsExact(rs: seq<ThreadResult>)
    requires RatesFit(rs)
    ensures Sum(rs, OfRuntime) > 0 && Reportable(Accumulate(rs))
    ensures SummaryLine(Accumulate(rs)).iops == Sum(rs, OfWork) / Sum(rs, OfRuntime)
       <==> |rs| == 1 || Sum(rs, OfWork) < Sum(rs, OfRuntime)
  {
    SummaryIopsIs(rs);
    var work, runtime := Sum(rs, OfWork), Sum(rs, OfRuntime);
    assert work / runtime >= 0;
    UnchangedExactly(work / runtime, |rs|);
    ZeroExactly(work, runtime);
  }

  /** A thread that completes 1000 I/Os in one second. */
  const THOUSAND: ThreadResult := ThreadResult(1000, 0, 0, 0, 1_000_000_000, 4096)

  /** Two such threads print 1000 iops each, and the summary prints 500. */
  lemma SummaryBelowThreads()
    ensures ThreadLine(THOUSAND).iops == 1000
    ensures Reportable(Accumulate([THOUSAND, THOUSAND]))
    ensures SummaryLine(Accumulate([THOUSAND, THOUSAND])).iops == 500
  {
    var two := [THOUSAND, THOUSAND];
    assert two[..1] == [THOUSAND] && [THOUSAND][..0] == [];
    ThousandTwice();
    assert Accumulate([THOUSAND]) == Totals(1, 0, 1000, 0, 0, 4096000, 1_000_000_000);
    assert Accumulate(two) == Totals(2, 0, 2000, 0, 0, 8192000, 2_000_000_000);
    FiveHundred();
  }

  lemma ThousandTwice()
    ensures Bps(1000, 4096, 1_000_000_000) == 4096000 && Iops(1000, 1_000_000_000) == 1000
    ensures Add(NOTHING, THOUSAND) == Totals(1, 0, 1000, 0, 0, 4096000, 1_000_000_000)
    ensures Add(Totals(1, 0, 1000, 0, 0, 4096000, 1_000_000_000), THOUSAND)
         == Totals(2, 0, 2000, 0, 0, 8192000, 2_000_000_000)
  {
    assert Bps(1000, 4096, 1_000_000_000) == 4096000;
  }

  lemma FiveHundred()
    ensures var st := Totals(2, 0, 2000, 0, 0, 8192000, 2_000_000_000);
            Reportable(st) && SummaryLine(st).iops == 500
  {
  }

  /** The bandwidth counts the bytes of the configured block. */
  lemma SmallBlocks()
    ensures ThreadLine(THOUSAND).bps == 4096000 && ThreadLine(THOUSAND.(blockSize := 512)).bps == 512000
  {
    assert Bps(1000, 512, 1_000_000_000) == 512000;
  }

  // ---------- the division ----------

  lemma AddModulo(x: int, y: int, m: int)
    requires m > 0
    ensures (x % m + y) % m == (x + y) % m
  {
    ModShift(x % m + y, x / m, m);
    assert x % m + y + x / m * m == x + y;
  }

  /** Every total is the sum of its figures, modulo the width of its field. */
  lemma {:induction false} AccumulateModulo(rs: seq<ThreadResult>)
    ensures Accumulate(rs).numThreads == U32(|rs|)
    ensures Accumulate(rs).dispatched == U64(Sum(rs, OfDispatched)) && Accumulate(rs).completed == U64(Sum(rs, OfCompleted))
    ensures Accumulate(rs).slatTotal == U64(Sum(rs, OfSlat)) && Accumulate(rs).clatTotal == U64(Sum(rs, OfClat))
    ensures Accumulate(rs).bpsTotal == U64(Sum(rs, OfBps)) && Accumulate(rs).runtimeTotal == U64(Sum(rs, OfRuntime))
  {
    if rs == [] {
    } else {
      var init, last := rs[..|rs| - 1], rs[|rs| - 1];
      AccumulateModulo(init);
      AddModulo(|init|, 1, TWO32);
      AddModulo(Sum(init, OfDispatched), last.dispatched, TWO64);
      AddModulo(Sum(init, OfCompleted), last.completed, TWO64);
      AddModulo(Sum(init, OfSlat), last.slatTotal, TWO64);
      AddModulo(Sum(init, OfClat), last.clatTotal, TWO64);
      AddModulo(Sum(init, OfBps), OfBps(last), TWO64);
      AddModulo(Sum(init, OfRuntime), last.runtime, TWO64);
    }
  }

  lemma RuntimeModulo(rs: seq<ThreadResult>)
    ensures Accumulate(rs).numThreads == U32(|rs|) && Accumulate(rs).runtimeTotal == U64(Sum(rs, OfRuntime))
  {
    AccumulateModulo(rs);
  }

  /** The summary can be computed exactly if summed runtimes times thread count is zero or no multiple of 2^64. */
  lemma ReportableExactly(rs: seq<ThreadResult>)
    requires |rs| < TWO32 && Sum(rs, OfRuntime) < TWO64
    ensures Reportable(Accumulate(rs))
       <==> Sum(rs, OfRuntime) * |rs| == 0 || Sum(rs, OfRuntime) * |rs| % TWO64 != 0
  {
    SumsNatural(rs);
    RuntimeModulo(rs);
    SmallU64(Sum(rs, OfRuntime));
    ReportableOf(Accumulate(rs), Sum(rs, OfRuntime), |rs|);
  }

  lemma ReportableOf(st: Totals, total: nat, n: nat)
    requires st.runtimeTotal == total && st.numThreads == n
    ensures Reportable(st) <==> total * n == 0 || total * n % TWO64 != 0
  {
    ProductZero(total, n);
  }

  lemma ProductZero(a: nat, b: nat)
    ensures a * b == 0 <==> a == 0 || b == 0
  {
    if a > 0 && b > 0 { ProductMonotone(1, a, b); }
  }

  lemma {:induction false} SumOfRuntimes(rs: seq<ThreadResult>, longest: nat)
    requires forall r | r in rs :: r.runtime <= longest
    ensures 0 <= Sum(rs, OfRuntime) <= longest * |rs|
  {
    if rs == [] {
    } else {
      SumOfRuntimes(rs[..|rs| - 1], longest);
      assert longest * |rs| == longest * (|rs| - 1) + longest;
    }
  }

  lemma SquareFits(n: nat, longest: nat)
    requires longest > 0 && longest * n * n < TWO64
    ensures n < TWO32
  {
    assert longest * (n * n) == longest * n * n;
    if n >= TWO32 {
      ProductMonotone(TWO32, n, TWO32);
      ProductMonotone(TWO32, n, n);
      ProductMonotone(1, longest, n * n);
    }
  }

  /** A bound to check before a run: with n threads of at most the given runtime, that times n times n below 2^64 is enough. */
  lemma ReportableIfShort(rs: seq<ThreadResult>, longest: nat)
    requires forall r | r in rs :: r.runtime <= longest
    requires longest * |rs| * |rs| < TWO64
    ensures Reportable(Accumulate(rs))
  {
    SumOfRuntimes(rs, longest);
    RuntimeModulo(rs);
    ShortIsReportable(Accumulate(rs), Sum(rs, OfRuntime), longest, |rs|);
  }

  lemma ShortIsReportable(st: Totals, total: nat, longest: nat, n: nat)
    requires st.runtimeTotal == U64(total) && st.numThreads == U32(n)
    requires total <= longest * n && longest * n * n < TWO64
    ensures Reportable(st)
  {
    if total > 0 {
      ShortProduct(total, longest, n);
      SmallU64(total);
      SmallU64(total * n);
    }
  }

  lemma ShortProduct(total: nat, longest: nat, n: nat)
    requires 0 < total <= longest * n && longest * n * n < TWO64
    ensures n < TWO32 && total < TWO64 && 0 < total * n < TWO64
  {
    ProductZero(longest, n);
    SquareFits(n, longest);
    ProductMonotone(total, longest * n, n);
    ProductMonotone(1, n, total);
  }

  // ---------- a run that divides by zero ----------

  function Copies(r: ThreadResult, n: nat): (rs: seq<ThreadResult>)
    ensures |rs| == n && forall i | 0 <= i < n :: rs[i] == r
  {
    seq(n, _ => r)
  }

  lemma {:induction false} SumOfCopies(r: ThreadResult, n: nat)
    ensures Sum(Copies(r, n), OfRuntime) == r.runtime * n
  {
    if n == 0 {
    } else {
      SumOfCopies(r, n - 1);
      assert Copies(r, n)[..n - 1] == Copies(r, n - 1);
      assert r.runtime * n == r.runtime * (n - 1) + r.runtime;
    }
  }

  /** A thread that runs for 2^40 nanoseconds, about 18 minutes. */
  const LONG_THREAD: ThreadResult := ThreadResult(1, 0, 0, 0, 0x100_0000_0000, 4096)

  /** The summary of 4096 such threads divides by zero, although every one of them stays within the longest run allowed. */
  lemma SummaryDividesByZero(n: nat)
    requires n == 4096
    ensures LONG_THREAD.runtime < 3600 * NSEC_PER_SEC
    ensures !Reportable(Accumulate(Copies(LONG_THREAD, n)))
  {
    SumOfCopies(LONG_THREAD, n);
    ReportableExactly(Copies(LONG_THREAD, n));
  }

  // ---------- the count and the latency ----------

  lemma LowWord(x: int)
    ensures U32(U64(x)) == U32(x)
  {
    ModOfMod(x, TWO32, TWO32);
  }

  /** The summary's count is the number of I/Os that all threads completed, modulo 2^32. */
  lemma SummaryCount(rs: seq<ThreadResult>)
    requires Reportable(Accumulate(rs))
    ensures SummaryLine(Accumulate(rs)).completed == Sum(rs, OfCompleted) % TWO32
  {
    AccumulateModulo(rs);
    LowWord(Sum(rs, OfCompleted));
  }

  /** So it is exactly that number exactly if it fits 32 bits. */
  lemma SummaryCountExact(rs: seq<ThreadResult>)
    requires Reportable(Accumulate(rs))
    ensures SummaryLine(Accumulate(rs)).completed == Sum(rs, OfCompleted) <==> Sum(rs, OfCompleted) < TWO32
  {
    SummaryCount(rs);
    SumsNatural(rs);
    SameBelow(Sum(rs, OfCompleted));
  }

  lemma SameBelow(x: nat)
    ensures x % TWO32 == x <==> x < TWO32
  {
  }

  /** The latency of the summary is the sum of its two parts exactly if that fits 64 bits. */
  lemma SummaryLatencyAdds(st: Totals)
    requires Reportable(st)
    ensures var l := SummaryLine(st); l.lat == l.slat + l.clat <==> l.slat + l.clat < TWO64
  {
  }

  // ---------- the figures of one line ----------

  /** A rounded-down quotient, and zero where there is nothing to divide by. */
  ghost predicate IsFloor(q: nat, total: nat, count: nat) {
    if count == 0 then q == 0 else q * count <= total < q * count + count
  }

  lemma FloorIs(total: nat, count: nat)
    ensures IsFloor(Average(total, count), total, count)
  {
    if count > 0 { Remainder(total, count); }
  }

  /** What the line of a thread says: its count, the averages of its latencies, and no rate if no time has passed. */
  lemma ThreadFigures(r: ThreadResult)
    ensures var l := ThreadLine(r);
            && l.completed == r.completed
            && IsFloor(l.slat, r.slatTotal, r.completed) && IsFloor(l.clat, r.clatTotal, r.completed)
            && (l.lat == l.slat + l.clat <==> l.slat + l.clat < TWO64)
            && (r.runtime == 0 ==> l.iops == 0 && l.bps == 0)
            && (r.completed == 0 ==> l.slat == l.clat == l.lat == l.iops == l.bps == 0)
  {
    FloorIs(r.slatTotal, r.completed);
    FloorIs(r.clatTotal, r.completed);
    if r.runtime > 0 { DivModUnique(0, r.runtime, 0, 0); }
  }

  /** The same for the summary, over its own totals. */
  lemma SummaryFigures(st: Totals)
    requires Reportable(st)
    ensures var l, count := SummaryLine(st), U32(st.completed);
            && l.completed == count
            && IsFloor(l.slat, st.slatTotal, count) && IsFloor(l.clat, st.clatTotal, count)
            && (st.runtimeTotal == 0 || st.numThreads == 0 ==> l.iops == 0 && l.bps == 0)
  {
    FloorIs(st.slatTotal, U32(st.completed));
    FloorIs(st.clatTotal, U32(st.completed));
  }
}
