/**
 The statistics of driver/kio_run.c: one line per thread and one for the whole run, with
 fixed-width arithmetic and floor division.
 */
module Stats {
  import opened Common
  import opened Machine

  const NSEC_PER_SEC: nat := 1_000_000_000

  /** What a finished worker leaves behind; block_size is that of its configuration. */
  datatype ThreadResult = ThreadResult(
    completed: nat, dispatched: nat, slatTotal: nat, clatTotal: nat, runtime: nat, blockSize: nat)

  /** The figures of one printed line: latencies in nanoseconds, bandwidth in bytes per second. */
  datatype Line = Line(completed: nat, slat: nat, clat: nat, lat: nat, iops: nat, bps: nat)

  datatype Totals = Totals(
    numThreads: nat, dispatched: nat, completed: nat,
    slatTotal: nat, clatTotal: nat, bpsTotal: nat, runtimeTotal: nat)

  const NOTHING: Totals := Totals(0, 0, 0, 0, 0, 0, 0)

  function Average(total: nat, count: nat): nat { if count == 0 then 0 else total / count }

  function Iops(count: nat, runtime: nat): nat {
    if runtime == 0 then 0 else U32(U64(count * NSEC_PER_SEC) / runtime)
  }

  function Bps(count: nat, blockSize: nat, runtime: nat): nat {
    if runtime == 0 then 0 else U64(count * blockSize * NSEC_PER_SEC) / runtime
  }

  function ThreadLine(r: ThreadResult): Line {
    var slat, clat := Average(r.slatTotal, r.completed), Average(r.clatTotal, r.completed);
    Line(r.completed, slat, clat, U64(slat + clat), Iops(r.completed, r.runtime), Bps(r.completed, r.blockSize, r.runtime))
  }

  function AddFigures(st: Totals, dispatched: nat, completed: nat, slat: nat, clat: nat, bps: nat, runtime: nat): Totals {
    Totals(U32(st.numThreads + 1), U64(st.dispatched + dispatched), U64(st.completed + completed),
           U64(st.slatTotal + slat), U64(st.clatTotal + clat), U64(st.bpsTotal + bps), U64(st.runtimeTotal + runtime))
  }

  function Add(st: Totals, r: ThreadResult): Totals {
    AddFigures(st, r.dispatched, r.completed, r.slatTotal, r.clatTotal,
               Bps(r.completed, r.blockSize, r.runtime), r.runtime)
  }

  function Accumulate(rs: seq<ThreadResult>): Totals {
    if rs == [] then NOTHING else Add(Accumulate(rs[..|rs| - 1]), rs[|rs| - 1])
  }

  /** The divisor of the summary's iops; the driver does not guard against its wrapping to zero. */
  function Divisor(st: Totals): nat { U64(st.runtimeTotal * st.numThreads) }

  predicate Reportable(st: Totals) {
    st.runtimeTotal != 0 && st.numThreads != 0 ==> Divisor(st) != 0
  }

  /** The iops and the bandwidth of the summary. */
  function RatesOf(st: Totals, count: nat): (nat, nat)
    requires Reportable(st)
  {
    if st.runtimeTotal != 0 && st.numThreads != 0
    then (U32(U64(count * NSEC_PER_SEC) / Divisor(st)), st.bpsTotal / st.numThreads)
    else (0, 0)
  }

  function SummaryLine(st: Totals): Line
    requires Reportable(st)
  {
    var count := U32(st.completed);
    var slat, clat := Average(st.slatTotal, count), Average(st.clatTotal, count);
    var (iops, bps) := RatesOf(st, count);
    Line(count, slat, clat, U64(slat + clat), iops, bps)
  }

  /** struct kio_run_stats, accumulated in place. */
  class RunStats {
    var totals: Totals

    constructor ()
      ensures totals == NOTHING
    {
      totals := NOTHING;
    }

    method Thread(r: ThreadResult) returns (line: Line)
      modifies this
      ensures totals == Add(old(totals), r)
      ensures line == ThreadLine(r)
    {
      line := Measure(r);
      totals := AddFigures(totals, r.dispatched, r.completed, r.slatTotal, r.clatTotal, line.bps, r.runtime);
    }
  }

  /** The averages of the two latencies and their sum, all zero if nothing has completed. */
  method MeasureLatencies(slatTotal: nat, clatTotal: nat, count: nat) returns (slat: nat, clat: nat, lat: nat)
    ensures slat == Average(slatTotal, count) && clat == Average(clatTotal, count) && lat == U64(slat + clat)
  {
    slat, clat, lat := 0, 0, 0;
    if count != 0 {
      slat := slatTotal / count;
      clat := clatTotal / count;
      lat := U64(slat + clat);
    }
  }

  /** The figures of one thread, as the driver computes them. */
  method Measure(r: ThreadResult) returns (line: Line)
    ensures line == ThreadLine(r)
  {
    var count, iops, bps := r.completed, 0, 0;
    var slat, clat, lat := MeasureLatencies(r.slatTotal, r.clatTotal, count);
    if r.runtime != 0 {
      iops := Iops(count, r.runtime);
      bps := Bps(count, r.blockSize, r.runtime);
    }
    line := Line(count, slat, clat, lat, iops, bps);
  }

  /** The rates of the summary, as the driver computes them; None is its division by zero. */
  method MeasureRates(st: Totals, count: nat) returns (rates: Option<(nat, nat)>)
    ensures rates == if Reportable(st) then Some(RatesOf(st, count)) else None
  {
    var iops, bps := 0, 0;
    if st.runtimeTotal != 0 && st.numThreads != 0 {
      var divisor := U64(st.runtimeTotal * st.numThreads);
      if divisor == 0 { return None; }
      iops := U32(U64(count * NSEC_PER_SEC) / divisor);
      bps := st.bpsTotal / st.numThreads;
    }
    rates := Some((iops, bps));
  }

  /** The figures of the summary, as the driver computes them. */
  method MeasureTotal(st: Totals) returns (line: Option<Line>)
    ensures line == if Reportable(st) then Some(SummaryLine(st)) else None
  {
    var count := U32(st.completed);
    var slat, clat, lat := MeasureLatencies(st.slatTotal, st.clatTotal, count);
    var rates := MeasureRates(st, count);
    if rates.None? { return None; }
    line := Some(Line(count, slat, clat, lat, rates.value.0, rates.value.1));
  }

  /** The end of kio_run: every thread's line, then the summary. */
  method Report(rs: seq<ThreadResult>) returns (lines: seq<Line>, summary: Option<Line>)
    ensures |lines| == |rs|
    ensures forall i | 0 <= i < |rs| :: lines[i] == ThreadLine(rs[i])
    ensures summary == if Reportable(Accumulate(rs)) then Some(SummaryLine(Accumulate(rs))) else None
  {
    var stats := new RunStats();
    lines := [];
    for i := 0 to |rs|
      invariant stats.totals == Accumulate(rs[..i])
      invariant |lines| == i
      invariant forall k | 0 <= k < i :: lines[k] == ThreadLine(rs[k])
    {
      var line := stats.Thread(rs[i]);
      lines := lines + [line];
      assert rs[..i + 1][..i] == rs[..i];
    }
    assert rs[..|rs|] == rs;
    summary := MeasureTotal(stats.totals);
  }

  // ---------- sums over threads ----------

  ghost function Sum(rs: seq<ThreadResult>, f: ThreadResult -> int): int {
    if rs == [] then 0 else Sum(rs[..|rs| - 1], f) + f(rs[|rs| - 1])
  }

  function OfCompleted(r: ThreadResult): int { r.completed }
  function OfDispatched(r: ThreadResult): int { r.dispatched }
  function OfSlat(r: ThreadResult): int { r.slatTotal }
  function OfClat(r: ThreadResult): int { r.clatTotal }
  function OfRuntime(r: ThreadResult): int { r.runtime }
  function OfBps(r: ThreadResult): int { Bps(r.completed, r.blockSize, r.runtime) }

  lemma {:induction false} SumNonNegative(rs: seq<ThreadResult>, f: ThreadResult -> int)
    requires forall r | r in rs :: f(r) >= 0
    ensures Sum(rs, f) >= 0
  {
    if rs == [] {
    } else {
      SumNonNegative(rs[..|rs| - 1], f);
    }
  }

  /** If f is at least m times g for every thread, so is the sum of f for the sum of g. */
  lemma {:induction false} SumAtLeast(rs: seq<ThreadResult>, f: ThreadResult -> int, g: ThreadResult -> int, m: int)
    requires forall r | r in rs :: f(r) >= m * g(r)
    ensures Sum(rs, f) >= m * Sum(rs, g)
  {
    if rs == [] {
    } else {
      var init, last := rs[..|rs| - 1], rs[|rs| - 1];
      SumAtLeast(init, f, g, m);
      assert last in rs;
      assert m * (Sum(init, g) + g(last)) == m * Sum(init, g) + m * g(last);
    }
  }

  /** The same from above, strictly. */
  lemma {:induction false} SumLess(rs: seq<ThreadResult>, f: ThreadResult -> int, g: ThreadResult -> int, m: int)
    requires forall r | r in rs :: f(r) < m * g(r) || f(r) == g(r) == 0
    ensures Sum(rs, f) <= m * Sum(rs, g)
    ensures (exists r | r in rs :: f(r) < m * g(r)) ==> Sum(rs, f) < m * Sum(rs, g)
  {
    if rs == [] {
    } else {
      var init, last := rs[..|rs| - 1], rs[|rs| - 1];
      SumLess(init, f, g, m);
      assert last in rs;
      assert m * (Sum(init, g) + g(last)) == m * Sum(init, g) + m * g(last);
      assert forall r | r in rs :: r in init || r == last;
    }
  }

  // ---------- no overflow ----------

  /** None of the sums of a run leaves its field. */
  ghost predicate SumsFit(rs: seq<ThreadResult>) {
    && |rs| < TWO32
    && Sum(rs, OfDispatched) < TWO64
    && Sum(rs, OfCompleted) < TWO32
    && Sum(rs, OfSlat) < TWO64
    && Sum(rs, OfClat) < TWO64
    && Sum(rs, OfBps) < TWO64
    && Sum(rs, OfRuntime) < TWO64
  }

  lemma SumsFitInit(rs: seq<ThreadResult>)
    requires SumsFit(rs) && rs != []
    ensures SumsFit(rs[..|rs| - 1])
  {
  }

  ghost function ExactTotals(rs: seq<ThreadResult>): Totals {
    SumsNatural(rs);
    Totals(|rs|, Sum(rs, OfDispatched), Sum(rs, OfCompleted), Sum(rs, OfSlat), Sum(rs, OfClat),
           Sum(rs, OfBps), Sum(rs, OfRuntime))
  }

  lemma SumsNatural(rs: seq<ThreadResult>)
    ensures Sum(rs, OfDispatched) >= 0 && Sum(rs, OfCompleted) >= 0 && Sum(rs, OfSlat) >= 0
    ensures Sum(rs, OfClat) >= 0 && Sum(rs, OfBps) >= 0 && Sum(rs, OfRuntime) >= 0
  {
    SumNonNegative(rs, OfDispatched);
    SumNonNegative(rs, OfCompleted);
    SumNonNegative(rs, OfSlat);
    SumNonNegative(rs, OfClat);
    SumNonNegative(rs, OfBps);
    SumNonNegative(rs, OfRuntime);
  }

  lemma AddFiguresExact(st: Totals, dispatched: nat, completed: nat, slat: nat, clat: nat, bps: nat, runtime: nat)
    requires st.numThreads + 1 < TWO32
    requires st.dispatched + dispatched < TWO64 && st.completed + completed < TWO64
    requires st.slatTotal + slat < TWO64 && st.clatTotal + clat < TWO64
    requires st.bpsTotal + bps < TWO64 && st.runtimeTotal + runtime < TWO64
    ensures AddFigures(st, dispatched, completed, slat, clat, bps, runtime)
         == Totals(st.numThreads + 1, st.dispatched + dispatched, st.completed + completed,
                   st.slatTotal + slat, st.clatTotal + clat, st.bpsTotal + bps, st.runtimeTotal + runtime)
  {
  }

  lemma {:induction false} AccumulateIsExact(rs: seq<ThreadResult>)
    requires SumsFit(rs)
    ensures Accumulate(rs) == ExactTotals(rs)
  {
    if rs == [] {
    } else {
      var init, r := rs[..|rs| - 1], rs[|rs| - 1];
      SumsFitInit(rs);
      AccumulateIsExact(init);
      AddFiguresExact(ExactTotals(init), r.dispatched, r.completed, r.slatTotal, r.clatTotal,
                      Bps(r.completed, r.blockSize, r.runtime), r.runtime);
    }
  }

  // ---------- averages of averages ----------

  /** A thread that completed nothing has no latency to report: it was drained. */
  predicate Drained(r: ThreadResult) {
    r.dispatched == 0 && (r.completed == 0 ==> r.slatTotal == r.clatTotal == 0)
  }

  /**
   Whatever bounds the averages of the threads that completed something also bounds the
   average over all of them, floor division notwithstanding.
   */
  lemma AverageWithin(rs: seq<ThreadResult>, f: ThreadResult -> int, low: nat, high: nat)
    requires forall r | r in rs :: f(r) >= 0 && (r.completed == 0 ==> f(r) == 0)
    requires forall r | r in rs && r.completed > 0 :: low <= f(r) / r.completed <= high
    requires Sum(rs, OfCompleted) > 0
    ensures low <= Sum(rs, f) / Sum(rs, OfCompleted) <= high
  {
    forall r | r in rs ensures f(r) >= low * OfCompleted(r) {
      if r.completed > 0 { TimesVersusQuotient(low, r.completed, f(r)); }
    }
    SumAtLeast(rs, f, OfCompleted, low);
    TimesVersusQuotient(low, Sum(rs, OfCompleted), Sum(rs, f));
    forall r | r in rs ensures f(r) < (high + 1) * OfCompleted(r) || f(r) == OfCompleted(r) == 0 {
      if r.completed > 0 { TimesVersusQuotient(high + 1, r.completed, f(r)); }
    }
    SumLess(rs, f, OfCompleted, high + 1);
    var r := SomePositive(rs, OfCompleted);
    TimesVersusQuotient(high + 1, Sum(rs, OfCompleted), Sum(rs, f));
  }

  lemma {:induction false} SomePositive(rs: seq<ThreadResult>, f: ThreadResult -> int) returns (r: ThreadResult)
    requires Sum(rs, f) > 0
    ensures r in rs && f(r) > 0
  {
    var init, last := rs[..|rs| - 1], rs[|rs| - 1];
    if f(last) > 0 { r := last; } else { r := SomePositive(init, f); }
  }

  lemma SummaryAverages(rs: seq<ThreadResult>)
    requires SumsFit(rs) && Sum(rs, OfCompleted) > 0 && Reportable(Accumulate(rs))
    ensures var summary := SummaryLine(Accumulate(rs));
            && summary.slat == Sum(rs, OfSlat) / Sum(rs, OfCompleted)
            && summary.clat == Sum(rs, OfClat) / Sum(rs, OfCompleted)
  {
    AccumulateIsExact(rs);
    SummaryAveragesOf(Accumulate(rs));
  }

  lemma SummaryAveragesOf(st: Totals)
    requires 0 < st.completed < TWO32 && Reportable(st)
    ensures SummaryLine(st).slat == st.slatTotal / st.completed
    ensures SummaryLine(st).clat == st.clatTotal / st.completed
  {
    assert U32(st.completed) == st.completed;
  }

  /** The summary's latencies lie between the smallest and largest thread averages. */
  lemma SummaryLatencies(rs: seq<ThreadResult>, low: Line, high: Line)
    requires SumsFit(rs) && Sum(rs, OfCompleted) > 0 && Reportable(Accumulate(rs))
    requires forall r | r in rs :: Drained(r)
    requires forall r | r in rs && r.completed > 0 ::
               && low.slat <= ThreadLine(r).slat <= high.slat
               && low.clat <= ThreadLine(r).clat <= high.clat
    ensures var summary := SummaryLine(Accumulate(rs));
            && low.slat <= summary.slat <= high.slat
            && low.clat <= summary.clat <= high.clat
  {
    SummaryAverages(rs);
    forall r | r in rs && r.completed > 0
      ensures ThreadLine(r).slat == OfSlat(r) / r.completed && ThreadLine(r).clat == OfClat(r) / r.completed
    {
    }
    AverageWithin(rs, OfSlat, low.slat, high.slat);
    AverageWithin(rs, OfClat, low.clat, high.clat);
  }
}
