/** What each sysfs store of driver/kio_config.c returns and leaves behind, in terms of what it is asked for. */
module Stores {
  import opened Common
  import opened Machine
  import opened Config
  import opened Launch
  import opened Lifecycle
  import opened Limits

  predicate Configured(m: Module) { m.numThreads != 0 || m.threads.Some? }

  // ---------- num_threads ----------

  /** Threads are created once, for a number from one to that of the processors, and show zero everywhere. */
  lemma NumThreadsOutcome(h: Host, m: Module, n: int, memory: bool, creationError: int)
    requires m.phase == Unlocked && !m.running
    ensures var (result, next) := Apply(h, m, StoreNumThreads(n, memory, creationError));
            && (Configured(m) ==> result == -EEXIST && next == m)
            && (!Configured(m) && (n < 1 || n > h.cpus) ==> result == -EINVAL && next == m)
            && (!Configured(m) && 1 <= n <= h.cpus && !memory ==> result == -ENOMEM && next == m)
            && (!Configured(m) && 1 <= n <= h.cpus && memory ==>
                  result == creationError && next.numThreads == n && next.runtimeSeconds == m.runtimeSeconds && !next.running)
            && (!Configured(m) && 1 <= n <= h.cpus && memory && creationError == 0 ==>
                  && next.threads.Some? && |next.threads.value| == n
                  && forall k, v: Var | 0 <= k < n :: ShowVar(next.threads.value[k], v) == 0)
  {
  }

  ghost predicate ResultOk(result: int) { result == -EEXIST || result == -EBUSY }

  /** After one such store, in every history, no other succeeds: -EEXIST, or -EBUSY while the flag is set. */
  lemma {:induction false} ThreadsStoredOnce(h: Host, m: Module, ops: seq<Op>)
    requires Configured(m) && IsHistory(h, m, ops)
    ensures Configured(After(h, m, ops))
    ensures forall k | 0 <= k < |ops| && ops[k].StoreNumThreads? :: ResultOk(Results(h, m, ops)[k])
    decreases |ops|
  {
    if ops == [] {
    } else {
      var next := Apply(h, m, ops[0]).1;
      StaysConfigured(h, m, ops[0]);
      ThreadsStoredOnce(h, next, ops[1..]);
      ResultsStep(h, m, ops);
    }
  }

  lemma StaysConfigured(h: Host, m: Module, op: Op)
    requires Configured(m) && Lifecycle.Enabled(m, op)
    ensures Configured(Apply(h, m, op).1)
    ensures op.StoreNumThreads? ==> ResultOk(Apply(h, m, op).0)
  {
  }

  lemma ResultsStep(h: Host, m: Module, ops: seq<Op>)
    requires ops != [] && IsHistory(h, m, ops)
    ensures Results(h, m, ops) == [Apply(h, m, ops[0]).0] + Results(h, Apply(h, m, ops[0]).1, ops[1..])
  {
  }

  // ---------- runtime_seconds ----------

  lemma RuntimeOutcome(h: Host, m: Module, seconds: int)
    requires m.phase == Unlocked && !m.running
    ensures var (result, next) := Apply(h, m, StoreRuntimeSeconds(seconds));
            && (result == -EOVERFLOW <==> seconds < 1 || seconds > 3600)
            && (result == 0 <==> 1 <= seconds <= 3600)
            && (result != 0 ==> next == m)
            && (result == 0 ==> next == m.(runtimeSeconds := seconds))
  {
  }

  // ---------- thread attributes ----------

  /** A store reaches one attribute of one thread, shown afterwards exactly if it fits, and nothing else. */
  lemma AttributeOutcome(h: Host, m: Module, tid: nat, v: Var, number: Number)
    requires !m.running && Sound(h, m) && (number.Parsed? ==> IsS64(number.x))
    ensures var (result, next) := Apply(h, m, StoreThreadVar(tid, v, number));
            var known := m.threads.Some? && tid < m.numThreads;
            && (!known ==> result == -ENODEV && next == m)
            && (known && number.Malformed? ==> result == number.errno && next == m)
            && (known && number.Parsed? ==>
                  && result == 0 && next == m.(threads := next.threads)
                  && next.threads.Some? && |next.threads.value| == m.numThreads
                  && (forall k | 0 <= k < m.numThreads && k != tid :: next.threads.value[k] == m.threads.value[k])
                  && (ShowVar(next.threads.value[tid], v) == number.x <==> Fits(v, number.x))
                  && forall w: Var | w != v :: ShowVar(next.threads.value[tid], w) == ShowVar(m.threads.value[tid], w))
  {
    if m.threads.Some? && tid < m.numThreads && number.Parsed? {
      StoreShowRoundTrip(m.threads.value[tid], v, number.x);
      forall w: Var ensures w != v ==> ShowVar(SetVar(m.threads.value[tid], v, number.x), w) == ShowVar(m.threads.value[tid], w) {
        StoreKeepsOthers(m.threads.value[tid], v, number.x, w);
      }
    }
  }

  /** Each attribute shows the field it is named after. */
  lemma AttributesShown(low: int, high: int, block: nat, depth: nat, stride: int, random: bool, delay: bool, finish: bool,
                        mix: nat, read: nat, write: nat, readSleep: nat, writeSleep: nat)
    ensures var t := ThreadConfig(low, high, block, depth, stride, random, delay, finish, mix, read, write, readSleep, writeSleep);
            && ShowVar(t, OffsetLow) == low && ShowVar(t, OffsetHigh) == high
            && ShowVar(t, BlockSize) == block && ShowVar(t, QueueDepth) == depth && ShowVar(t, OffsetStride) == stride
            && (ShowVar(t, OffsetRandom) == 1 <==> random) && (ShowVar(t, BurstDelay) == 1 <==> delay)
            && (ShowVar(t, BurstFinish) == 1 <==> finish) && ShowVar(t, ReadMixPercent) == mix
            && ShowVar(t, ReadBurst) == read && ShowVar(t, WriteBurst) == write
            && ShowVar(t, ReadSleepUsec) == readSleep && ShowVar(t, WriteSleepUsec) == writeSleep
  {
  }

  // ---------- run_workload ----------

  /** The configuration is allowed: as many threads as processors, at most an hour, and every thread within its limits. */
  ghost predicate MayRun(h: Host, m: Module) {
    && m.threads.Some?
    && GlobalsAllowed(m.numThreads, m.runtimeSeconds, h.cpus)
    && forall k | 0 <= k < |m.threads.value| :: Allowed(m.threads.value[k], h.devSize)
  }

  ghost predicate OnlyPages(m: Module) {
    m.threads.Some? && forall k | 0 <= k < |m.threads.value| :: m.threads.value[k].blockSize == 4096
  }

  /**
   A run is refused with -ECHILD without threads and with -ENOEXEC exactly for a configuration
   that is not allowed; otherwise the store succeeds, and the run starts exactly if all blocks
   are of 4096 bytes.
   */
  lemma RunOutcome(h: Host, m: Module)
    requires m.phase == Unlocked && !m.running && Sound(h, m) && h.devSize < TWO63
    ensures var (result, next) := Apply(h, m, EnterRun);
            && (result == -ECHILD <==> m.threads.None?)
            && (result == -ENOEXEC <==> m.threads.Some? && !MayRun(h, m))
            && (result == 0 <==> MayRun(h, m))
            && (next.phase == Running <==> MayRun(h, m) && OnlyPages(m))
            && (next.running <==> next.phase == Running)
            && next.numThreads == m.numThreads && next.runtimeSeconds == m.runtimeSeconds
            && (m.threads.None? ==> next == m)
            && (m.threads.Some? ==>
                  next.threads == Some(Validate(m.threads.value, m.runtimeSeconds, h.cpus, h.devSize).0))
  {
    if m.threads.Some? {
      ValidateExactly(m.threads.value, m.runtimeSeconds, h.cpus, h.devSize);
      ValidateMeaning(m.threads.value, m.runtimeSeconds, h.cpus, h.devSize);
      BlocksStay(m.threads.value, m.runtimeSeconds, h.cpus, h.devSize);
    }
  }

  lemma BlocksStay(ts: seq<ThreadConfig>, runtimeSeconds: nat, cpus: nat, devSize: nat)
    requires AllRepresentable(ts) && devSize < TWO63
    ensures AllBlocks4096(Validate(ts, runtimeSeconds, cpus, devSize).0) <==> AllBlocks4096(ts)
  {
    ValidateMeaning(ts, runtimeSeconds, cpus, devSize);
    var out := Validate(ts, runtimeSeconds, cpus, devSize).0;
    forall k | 0 <= k < |ts| ensures out[k].blockSize == ts[k].blockSize {
      assert out[k] == ts[k] || out[k] == Capped(ts[k], devSize);
    }
  }

  // ---------- the end of a run ----------

  /** What kio_run returns in the end, and that it clears the flag unless it fails before its second thread. */
  lemma FinishOutcome(h: Host, m: Module, a: Answers)
    requires m.phase == Running && |a.starts| == m.numThreads > 0
    ensures var (result, next) := Apply(h, m, ReturnFromRun(a));
            var f := FirstError(a.starts);
            && result == (if !a.memory then -ENOMEM
                          else if f < |a.starts| then a.starts[f]
                          else if a.emergency then -EINTR else 0)
            && next == m.(phase := next.phase, running := next.running)
            && (next.phase == Reporting <==> a.memory && f > 0)
            && (next.phase == Unlocked <==> !a.memory || f == 0)
            && (next.running <==> m.running && next.phase == Unlocked)
  {
    ResultExactly(a);
    FlagLeftExactly(a);
  }
}
