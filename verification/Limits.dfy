/**
 What the validator of driver/kio_config.c decides, said without its own tests: limits for
 each attribute as it is shown, powers of two, and bursts for the directions a thread takes.
 */
module Limits {
  import opened Machine
  import opened Config
  import opened Direction
  import opened Lifecycle

  // ---------- ranges ----------

  function Low(v: Var): int {
    match v
    case BlockSize | OffsetStride => 512
    case QueueDepth => 1
    case _ => 0
  }

  function High(v: Var): int {
    match v
    case BlockSize | OffsetStride => 0x10_0000
    case QueueDepth | ReadBurst | WriteBurst => 1024
    case OffsetRandom | BurstDelay | BurstFinish => 1
    case OffsetLow | OffsetHigh => TWO63 - 1
    case ReadMixPercent => 100
    case ReadSleepUsec | WriteSleepUsec => 100000
  }

  ghost predicate WithinLimits(t: ThreadConfig) { forall v: Var :: Low(v) <= ShowVar(t, v) <= High(v) }

  lemma LimitsMeaning(t: ThreadConfig)
    requires Representable(t)
    ensures InRange(t) <==> WithinLimits(t)
  {
    if WithinLimits(t) {
      assert forall v: Var :: Low(v) <= ShowVar(t, v) <= High(v);
      assert Low(BlockSize) <= ShowVar(t, BlockSize) <= High(BlockSize);
      assert Low(OffsetStride) <= ShowVar(t, OffsetStride) <= High(OffsetStride);
      assert Low(QueueDepth) <= ShowVar(t, QueueDepth) <= High(QueueDepth);
      assert Low(OffsetLow) <= ShowVar(t, OffsetLow) && Low(OffsetHigh) <= ShowVar(t, OffsetHigh);
      assert ShowVar(t, ReadMixPercent) <= High(ReadMixPercent);
      assert ShowVar(t, ReadBurst) <= High(ReadBurst) && ShowVar(t, WriteBurst) <= High(WriteBurst);
      assert ShowVar(t, ReadSleepUsec) <= High(ReadSleepUsec) && ShowVar(t, WriteSleepUsec) <= High(WriteSleepUsec);
    }
  }

  // ---------- powers of two ----------

  ghost predicate IsSomePow2(n: nat) { exists k: nat :: n == Pow2(k) }

  lemma {:induction false} PowerIsPow2(n: nat) returns (k: nat)
    requires IsPowerOf2(n)
    ensures n == Pow2(k)
  {
    if n == 1 {
      k := 0;
    } else {
      k := PowerIsPow2(n / 2);
      k := k + 1;
    }
  }

  lemma {:induction false} Pow2IsPower(k: nat)
    ensures IsPowerOf2(Pow2(k))
  {
    if k == 0 {
    } else {
      Pow2IsPower(k - 1);
      assert Pow2(k) / 2 == Pow2(k - 1);
    }
  }

  lemma PowerMeaning(n: nat)
    ensures IsPowerOf2(n) <==> IsSomePow2(n)
  {
    if IsPowerOf2(n) {
      var k := PowerIsPow2(n);
    }
    if k: nat :| n == Pow2(k) { Pow2IsPower(k); }
  }

  // ---------- bursts ----------

  /** The configured burst length of a direction, as it is shown. */
  function ShownBurst(t: ThreadConfig, isWrite: bool): int { ShowVar(t, if isWrite then WriteBurst else ReadBurst) }

  /** Whatever the random value, the thread would take the given direction. */
  ghost predicate Always(t: ThreadConfig, isWrite: bool) { forall rnd: nat :: PicksWrite(t, rnd) == isWrite }

  /** Some direction has a burst length, and so has the only direction of a thread that takes only one. */
  ghost predicate HasBursts(t: ThreadConfig) {
    && (exists isWrite :: ShownBurst(t, isWrite) != 0)
    && (forall isWrite | Always(t, isWrite) :: ShownBurst(t, isWrite) != 0)
  }

  lemma AlwaysMeaning(t: ThreadConfig)
    requires t.readMixPercent <= 100
    ensures Always(t, true) <==> t.readMixPercent == 0
    ensures Always(t, false) <==> t.readMixPercent == 100
  {
    assert PicksWrite(t, 0) <==> t.readMixPercent == 0;
    assert PicksWrite(t, 99) <==> t.readMixPercent <= 99;
  }

  lemma BurstsMeaning(t: ThreadConfig)
    requires t.readMixPercent <= 100
    ensures BurstsUsable(t) <==> HasBursts(t)
  {
    AlwaysMeaning(t);
    assert ShownBurst(t, false) == t.readBurst && ShownBurst(t, true) == t.writeBurst;
  }

  /** All I/Os of such a thread go in that direction. */
  lemma AlwaysIssues(t: ThreadConfig, isWrite: bool, draws: nat -> nat, n: nat)
    requires t.readMixPercent <= 100 && Always(t, isWrite)
    ensures Writes(Run(t, draws, n).dirs) == Repeat(isWrite, n)
  {
    AlwaysMeaning(t);
    UnmixedDirections(t, draws, n);
  }

  // ---------- the verdict ----------

  /** What is asked of a thread on a device of the given size. */
  ghost predicate Allowed(t: ThreadConfig, devSize: nat) {
    && WithinLimits(t)
    && IsSomePow2(t.blockSize)
    && t.offsetLow < t.offsetHigh
    && t.offsetLow + t.blockSize < devSize
    && HasBursts(t)
  }

  lemma AllowedMeaning(t: ThreadConfig, devSize: nat)
    requires Representable(t)
    ensures Acceptable(t, devSize) <==> Allowed(t, devSize)
  {
    LimitsMeaning(t);
    PowerMeaning(t.blockSize);
    if t.readMixPercent <= 100 {
      BurstsMeaning(t);
    } else {
      assert ShowVar(t, ReadMixPercent) > High(ReadMixPercent);
    }
  }

  /** As many threads as processors allow, and a runtime of at most an hour. */
  predicate GlobalsAllowed(numThreads: nat, runtimeSeconds: nat, cpus: nat) {
    1 <= numThreads && numThreads <= cpus && 1 <= runtimeSeconds && runtimeSeconds <= 3600
  }

  /**
   The validator accepts exactly the configurations allowed; it then leaves every thread as it
   was but for offset_high, which is no further than one block before the device's end.
   */
  lemma ValidateExactly(ts: seq<ThreadConfig>, runtimeSeconds: nat, cpus: nat, devSize: nat)
    requires AllRepresentable(ts) && devSize < TWO63
    ensures var (out, ok) := Validate(ts, runtimeSeconds, cpus, devSize);
            && (ok <==> GlobalsAllowed(|ts|, runtimeSeconds, cpus)
                        && forall k | 0 <= k < |ts| :: Allowed(ts[k], devSize))
            && |out| == |ts|
            && (ok ==> forall k | 0 <= k < |ts| ::
                  && out[k].offsetHigh == (if ts[k].offsetHigh + ts[k].blockSize <= devSize
                                           then ts[k].offsetHigh else devSize - ts[k].blockSize)
                  && forall v: Var | v != OffsetHigh :: ShowVar(out[k], v) == ShowVar(ts[k], v))
  {
    ValidateMeaning(ts, runtimeSeconds, cpus, devSize);
    var (out, ok) := Validate(ts, runtimeSeconds, cpus, devSize);
    forall k | 0 <= k < |ts| ensures Acceptable(ts[k], devSize) <==> Allowed(ts[k], devSize) {
      AllowedMeaning(ts[k], devSize);
    }
    if ok {
      forall k | 0 <= k < |ts| ensures forall v: Var | v != OffsetHigh :: ShowVar(out[k], v) == ShowVar(ts[k], v) {
        CappedShows(ts[k], devSize);
      }
    }
  }

  lemma CappedShows(t: ThreadConfig, devSize: nat)
    ensures forall v: Var | v != OffsetHigh :: ShowVar(Capped(t, devSize), v) == ShowVar(t, v)
  {
  }

  // ---------- what a rejection leaves behind ----------

  /** Thread f is the first that is not allowed. */
  ghost predicate FirstBad(ts: seq<ThreadConfig>, devSize: nat, f: nat) {
    f < |ts| && !Allowed(ts[f], devSize) && forall k | 0 <= k < f :: Allowed(ts[k], devSize)
  }

  /** A thread gets as far as the cap: within its limits, a power of two, and room for one block at offset_low. */
  ghost predicate GetsCapped(t: ThreadConfig, devSize: nat) {
    WithinLimits(t) && IsSomePow2(t.blockSize) && t.offsetLow + t.blockSize <= devSize
  }

  lemma {:induction false} StopsAtBad(ts: seq<ThreadConfig>, i: nat, f: nat, devSize: nat)
    requires i <= f && FirstBad(ts, devSize, f) && AllRepresentable(ts) && devSize < TWO63
    ensures var out := CheckThreads(ts, i, devSize).0;
            && |out| == |ts|
            && (forall k | 0 <= k < |ts| :: out[k] == if i <= k < f then Capped(ts[k], devSize)
                                                      else if k == f then CheckThread(ts[k], devSize).0 else ts[k])
    decreases f - i
  {
    CheckThreadVerdict(ts[i], devSize);
    AllowedMeaning(ts[i], devSize);
    if i == f {
    } else {
      var next := ts[i := Capped(ts[i], devSize)];
      assert FirstBad(next, devSize, f) by { CappedAllowed(ts[i], devSize); }
      StopsAtBad(next, i + 1, f, devSize);
    }
  }

  lemma CappedAllowed(t: ThreadConfig, devSize: nat)
    requires Representable(t) && devSize < TWO63 && Allowed(t, devSize)
    ensures Representable(Capped(t, devSize)) && Allowed(Capped(t, devSize), devSize)
  {
    AllowedMeaning(t, devSize);
    AllowedMeaning(Capped(t, devSize), devSize);
  }

  lemma BadIsCapped(t: ThreadConfig, devSize: nat)
    requires Representable(t) && devSize < TWO63
    ensures CheckThread(t, devSize).0 == if GetsCapped(t, devSize) then Capped(t, devSize) else t
  {
    CheckThreadIsExact(t, devSize);
    LimitsMeaning(t);
    PowerMeaning(t.blockSize);
  }

  /**
   A rejecting validator has capped the threads before the first bad one, that one if it got as
   far, and has left all later threads alone.
   */
  lemma RejectionLeaves(ts: seq<ThreadConfig>, runtimeSeconds: nat, cpus: nat, devSize: nat, f: nat)
    requires AllRepresentable(ts) && devSize < TWO63 && GlobalsAllowed(|ts|, runtimeSeconds, cpus)
    requires FirstBad(ts, devSize, f)
    ensures var out := Validate(ts, runtimeSeconds, cpus, devSize).0;
            && |out| == |ts|
            && (forall k | 0 <= k < |ts| ::
                  out[k] == if k < f || (k == f && GetsCapped(ts[k], devSize)) then Capped(ts[k], devSize) else ts[k])
  {
    StopsAtBad(ts, 0, f, devSize);
    BadIsCapped(ts[f], devSize);
  }

  /** Without a valid number of threads or runtime it has not looked at the threads at all. */
  lemma GlobalsFirst(ts: seq<ThreadConfig>, runtimeSeconds: nat, cpus: nat, devSize: nat)
    requires !GlobalsAllowed(|ts|, runtimeSeconds, cpus)
    ensures Validate(ts, runtimeSeconds, cpus, devSize) == (ts, false)
  {
  }
}
