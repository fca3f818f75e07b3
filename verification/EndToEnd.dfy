/** Results that span the driver: from the sysfs history to the report read back. */
module EndToEnd {
  import opened Machine
  import opened Common
  import Lifecycle
  import P = Protocol
  import Accounting
  import Bounds
  import Drain
  import Exactly
  import Fleet
  import Reach
  import Witness
  import Stats
  import Summary
  import Report

  // ---------- from the configuration to the device ----------

  /** The environment of the k-th worker of a run in progress. */
  function WorkerEnv(h: Lifecycle.Host, m: Lifecycle.Module, k: nat, devBlock: nat): P.Env
    requires m.threads.Some? && k < |m.threads.value|
  {
    P.Env(m.threads.value[k], h.devSize, devBlock)
  }

  /**
   In every history of sysfs operations from module load, every worker of a run in progress
   submits only offsets the device accepts, whatever the interleaving, and never has more
   than its queue depth dispatched, plus one if a signal is pending; the depth is at most 1024.
   */
  lemma RunInProgressIsSafe(h: Lifecycle.Host, ops: seq<Lifecycle.Op>, k: nat, devBlock: nat,
         s0: P.State, ls: seq<P.Label>)
    requires h.devSize < TWO63 && devBlock > 0
    requires Lifecycle.IsHistory(h, Lifecycle.INITIAL, ops)
    requires Lifecycle.After(h, Lifecycle.INITIAL, ops).phase == Lifecycle.Running
    requires Lifecycle.After(h, Lifecycle.INITIAL, ops).threads.Some?
    requires k < |Lifecycle.After(h, Lifecycle.INITIAL, ops).threads.value|
    requires P.Initial(s0)
    requires P.IsRun(WorkerEnv(h, Lifecycle.After(h, Lifecycle.INITIAL, ops), k, devBlock), s0, ls)
    ensures var env := WorkerEnv(h, Lifecycle.After(h, Lifecycle.INITIAL, ops), k, devBlock);
            var s := P.After(env, s0, ls);
            && (forall i | 0 <= i < |s.ios| :: Bounds.ValidOffset(env, s.ios[i].offset))
            && s.result != -EINVAL
            && s.dispatched <= 1024 + (if s.signal then 1 else 0)
  {
    Lifecycle.RunsOnlyWhenReady(h, ops);
    var m := Lifecycle.After(h, Lifecycle.INITIAL, ops);
    var env := WorkerEnv(h, m, k, devBlock);
    assert Bounds.Accepted(env);
    Bounds.EveryOffsetValid(env, s0, ls);
    Bounds.QueueDepth(env, s0, ls);
  }

  /** The worker of the reader's run on a given host. */
  function ReaderEnv(h: Lifecycle.Host, devBlock: nat): P.Env
    requires h.devSize > 4096
  {
    WorkerEnv(h, Reach.ReaderRun(h), 0, devBlock)
  }

  lemma ReaderAccepted(h: Lifecycle.Host, devBlock: nat)
    requires Reach.Usable(h) && h.devSize < TWO63 && devBlock > 0
    ensures Bounds.Accepted(ReaderEnv(h, devBlock))
  {
    Reach.ReaderAcceptable(h.devSize);
  }

  /** The bound is met: on every usable host a history from module load leads to a run that dispatches 1025 I/Os. */
  lemma BoundReached(h: Lifecycle.Host, devBlock: nat) returns (ops: seq<Lifecycle.Op>, ls: seq<P.Label>)
    requires Reach.Usable(h) && h.devSize < TWO63 && devBlock > 0
    ensures Reach.Reaches(h, ops, Reach.ReaderRun(h))
    ensures P.Initial(Exactly.Start(1)) && P.IsRun(ReaderEnv(h, devBlock), Exactly.Start(1), ls)
    ensures P.After(ReaderEnv(h, devBlock), Exactly.Start(1), ls).dispatched == 1025
  {
    ops := Reach.ReaderRuns(h);
    ReaderAccepted(h, devBlock);
    ls := Witness.SignalOvershoots(ReaderEnv(h, devBlock), Exactly.Start(1), false);
  }

  /**
   On every usable host a history from module load leads to a run whose first submission
   fails; from then on, as long as its worker gets no signal, the module is held for ever.
   */
  lemma ModuleCanBeHeld(h: Lifecycle.Host, devBlock: nat)
    returns (ops: seq<Lifecycle.Op>, s0: Fleet.System, acts: seq<Fleet.Act>)
    requires Reach.Usable(h) && h.devSize < TWO63 && devBlock > 0
    ensures Reach.Reaches(h, ops, s0.m) && Fleet.Starts(s0) && |s0.workers| == 1
    ensures Fleet.IsRun(h, [ReaderEnv(h, devBlock)], s0, acts)
    ensures var w := Fleet.After(h, [ReaderEnv(h, devBlock)], s0, acts).workers[0];
            Drain.SomeFailed(w) && !w.signal
  {
    ops := Reach.ReaderRuns(h);
    ReaderAccepted(h, devBlock);
    var ls := Witness.FirstSubmissionFails(ReaderEnv(h, devBlock), Exactly.Start(1));
    s0 := Fleet.System(Reach.ReaderRun(h), [Exactly.Start(1)]);
    Fleet.Lift(h, [ReaderEnv(h, devBlock)], s0, 0, ls);
    acts := Fleet.ActsOf(0, ls);
  }

  // ---------- from the worker to the statistics ----------

  /** What a worker that has ended hands to the statistics. */
  function ResultOf(env: P.Env, s: P.State): Stats.ThreadResult
    requires s.completed >= 0 && s.dispatched >= 0 && s.slatTotal >= 0 && s.clatTotal >= 0 && s.runtime >= 0
  {
    Stats.ThreadResult(s.completed, s.dispatched, s.slatTotal, s.clatTotal, s.runtime, env.t.blockSize)
  }

  lemma TotalsNatural(env: P.Env, s0: P.State, ls: seq<P.Label>)
    requires P.Initial(s0) && P.IsRun(env, s0, ls) && P.After(env, s0, ls).pc == P.Done
    ensures var s := P.After(env, s0, ls);
            s.completed >= 0 && s.dispatched >= 0 && s.slatTotal >= 0 && s.clatTotal >= 0 && s.runtime >= 0
  {
    Accounting.RunKeepsSound(env, s0, ls);
    Accounting.Conservation(env, s0, ls);
    P.SumBounds(P.After(env, s0, ls).ios, Accounting.TimedLatency);
  }

  /**
   A worker that ended with nothing dispatched and no handler between its two updates is
   drained in the sense of the statistics: its count is the number of its I/Os, and its
   average submission latency times that count fits its runtime.
   */
  lemma EndedWorkerIsDrained(env: P.Env, s0: P.State, ls: seq<P.Label>)
    requires P.Initial(s0) && P.IsRun(env, s0, ls)
    requires var s := P.After(env, s0, ls);
             s.pc == P.Done && s.dispatched == 0 && P.Sum(s.ios, Accounting.Between) == 0
    ensures var s := P.After(env, s0, ls);
            && s.completed == |s.ios| && s.completed >= 0 && s.slatTotal >= 0 && s.clatTotal >= 0 && s.runtime >= 0
            && Stats.Drained(ResultOf(env, s))
            && Stats.ThreadLine(ResultOf(env, s)).slat * s.completed <= s.runtime
  {
    var s := P.After(env, s0, ls);
    TotalsNatural(env, s0, ls);
    Accounting.RunKeepsSound(env, s0, ls);
    Accounting.Conservation(env, s0, ls);
    if s.completed > 0 { Remainder(s.slatTotal, s.completed); }
  }

  // ---------- from the statistics to the report read back ----------

  ghost function Lines(rs: seq<Stats.ThreadResult>): (lines: seq<Stats.Line>)
    ensures |lines| == |rs| && forall i | 0 <= i < |rs| :: lines[i] == Stats.ThreadLine(rs[i])
  {
    seq(|rs|, i requires 0 <= i < |rs| => Stats.ThreadLine(rs[i]))
  }

  /** Parsing the complete log of a run yields exactly the statistics of its threads and of the run. */
  lemma {:induction false} StatisticsReadBack(rs: seq<Stats.ThreadResult>, log: seq<Report.Entry>)
    requires rs != [] && Stats.Reportable(Stats.Accumulate(rs))
    requires Report.LogOf(log, Lines(rs), Stats.SummaryLine(Stats.Accumulate(rs)))
    requires Report.HasSummary(log) && forall t: nat | t < |rs| :: t in Report.Tids(log)
    ensures Report.Conclude(Report.GatherAll(Report.Meanings(Report.RenderAll(log))))
         == Report.Parsed(Report.RecordOf(Stats.SummaryLine(Stats.Accumulate(rs))), Report.RecordsOf(Lines(rs)))
  {
    Report.RunReadBack(log, Lines(rs), Stats.SummaryLine(Stats.Accumulate(rs)));
  }

  /** The figures the statistics read from an ended worker. */
  predicate IsResultOf(r: Stats.ThreadResult, env: P.Env, w: P.State) {
    && r.completed == w.completed && r.dispatched == w.dispatched
    && r.slatTotal == w.slatTotal && r.clatTotal == w.clatTotal && r.runtime == w.runtime
    && r.blockSize == env.t.blockSize
  }

  /** Ended, with nothing dispatched and no handler between its two updates. */
  ghost predicate EndedDrained(w: P.State) {
    w.pc == P.Done && w.dispatched == 0 && P.Sum(w.ios, Accounting.Between) == 0
  }

  /**
   From the workers to the parsed log: after any run of any number of workers that have all
   ended drained, the complete log reads back with exactly the number of its I/Os for each
   thread, each of them drained in the sense of the statistics, and with the number of all
   I/Os, modulo 2^32, for the summary.
   */
  lemma FleetReadBack(h: Lifecycle.Host, envs: seq<P.Env>, s0: Fleet.System, acts: seq<Fleet.Act>,
                      rs: seq<Stats.ThreadResult>, log: seq<Report.Entry>)
    requires |envs| == |s0.workers| == |rs| > 0 && Fleet.Starts(s0) && Fleet.IsRun(h, envs, s0, acts)
    requires var s := Fleet.After(h, envs, s0, acts);
             forall i | 0 <= i < |rs| :: EndedDrained(s.workers[i]) && IsResultOf(rs[i], envs[i], s.workers[i])
    requires Stats.Reportable(Stats.Accumulate(rs))
    requires Report.LogOf(log, Lines(rs), Stats.SummaryLine(Stats.Accumulate(rs)))
    requires Report.HasSummary(log) && forall t: nat | t < |rs| :: t in Report.Tids(log)
    ensures var s := Fleet.After(h, envs, s0, acts);
            var parsed := Report.Conclude(Report.GatherAll(Report.Meanings(Report.RenderAll(log))));
            && parsed.Parsed?
            && (forall t: nat :: t in parsed.threads <==> t < |rs|)
            && (forall t: nat | t < |rs| :: parsed.threads[t].completed == |s.workers[t].ios|)
            && parsed.summary.completed == AllIos(s.workers) % TWO32
    ensures forall i | 0 <= i < |rs| :: Stats.Drained(rs[i])
  {
    StatisticsReadBack(rs, log);
    var s := Fleet.After(h, envs, s0, acts);
    forall i | 0 <= i < |rs| ensures rs[i].completed == |s.workers[i].ios| && Stats.Drained(rs[i]) {
      FleetWorkerDrained(h, envs, s0, acts, i, rs[i]);
    }
    CompletedAre(rs, s.workers);
    Summary.SummaryCount(rs);
  }

  /** The I/Os of all workers together. */
  ghost function AllIos(workers: seq<P.State>): nat {
    if workers == [] then 0 else AllIos(workers[..|workers| - 1]) + |workers[|workers| - 1].ios|
  }

  lemma {:induction false} CompletedAre(rs: seq<Stats.ThreadResult>, workers: seq<P.State>)
    requires |rs| == |workers| && forall i | 0 <= i < |rs| :: rs[i].completed == |workers[i].ios|
    ensures Stats.Sum(rs, Stats.OfCompleted) == AllIos(workers)
  {
    if rs == [] {
    } else {
      CompletedAre(rs[..|rs| - 1], workers[..|workers| - 1]);
    }
  }

  lemma FleetWorkerDrained(h: Lifecycle.Host, envs: seq<P.Env>, s0: Fleet.System, acts: seq<Fleet.Act>,
                           i: nat, r: Stats.ThreadResult)
    requires |envs| == |s0.workers| && Fleet.Starts(s0) && Fleet.IsRun(h, envs, s0, acts) && i < |s0.workers|
    requires EndedDrained(Fleet.After(h, envs, s0, acts).workers[i])
    requires IsResultOf(r, envs[i], Fleet.After(h, envs, s0, acts).workers[i])
    ensures r.completed == |Fleet.After(h, envs, s0, acts).workers[i].ios| && Stats.Drained(r)
  {
    var ls := Fleet.WorkerRun(h, envs, s0, acts, i);
    EndedWorkerIsDrained(envs[i], s0.workers[i], ls);
  }

  /** What the driver itself prints at the end of a run, one line per thread and the summary, behind the given prefixes. */
  ghost function DriverLog(prefixes: seq<string>, lines: seq<Stats.Line>, summary: Stats.Line): (log: seq<Report.Entry>)
    requires |prefixes| == |lines| + 1
    ensures |log| == |lines| + 1
  {
    seq(|lines|, i requires 0 <= i < |lines| => Report.ThreadReport(prefixes[i], i, lines[i]))
    + [Report.SummaryReport(prefixes[|lines|], summary)]
  }

  /** That log is complete, so it reads back as the run, whatever prefixes without a report line the kernel adds. */
  lemma DriverLogReadBack(prefixes: seq<string>, lines: seq<Stats.Line>, summary: Stats.Line)
    requires lines != [] && |prefixes| == |lines| + 1
    requires forall i | 0 <= i < |prefixes| :: Report.Silent(prefixes[i])
    ensures var log := DriverLog(prefixes, lines, summary);
            Report.Conclude(Report.GatherAll(Report.Meanings(Report.RenderAll(log))))
            == Report.Parsed(Report.RecordOf(summary), Report.RecordsOf(lines))
  {
    var log := DriverLog(prefixes, lines, summary);
    assert log[|lines|] == Report.SummaryReport(prefixes[|lines|], summary);
    forall t: nat | t < |lines| ensures t in Report.Tids(log) {
      assert log[t] == Report.ThreadReport(prefixes[t], t, lines[t]);
    }
    Report.RunReadBack(log, lines, summary);
  }

  /** The latency read back is the sum of its two parts exactly when that sum fits 64 bits. */
  lemma ParsedLatencyAdds(r: Stats.ThreadResult)
    ensures var l := Stats.ThreadLine(r);
            var record := Report.RecordOf(l);
            record.lat.digits == record.slat.digits + record.clat.digits <==> l.slat + l.clat < TWO64
  {
  }
}
