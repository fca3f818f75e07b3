/**
 The per-thread configuration of driver/kio_config.h and the validator of
 driver/kio_config.c, which checks a configuration and caps offset_high on the way.
 */
module Config {
  import opened Machine

  const MAX_RUNTIME_SECONDS: int := 3600
  const PAGE_SIZE: nat := 4096

  datatype ThreadConfig = ThreadConfig(
    offsetLow: int,
    offsetHigh: int,
    blockSize: nat,
    queueDepth: nat,
    offsetStride: int,
    offsetRandom: bool,
    burstDelay: bool,
    burstFinish: bool,
    readMixPercent: nat,
    readBurst: nat,
    writeBurst: nat,
    readSleepUsec: nat,
    writeSleepUsec: nat)

  /** Every field fits the C type it is stored in. */
  predicate Representable(t: ThreadConfig) {
    && IsS64(t.offsetLow) && IsS64(t.offsetHigh)
    && IsU32(t.blockSize) && IsU32(t.queueDepth)
    && -TWO31 <= t.offsetStride < TWO31
    && t.readMixPercent < 256
    && IsU32(t.readBurst) && IsU32(t.writeBurst)
    && IsU32(t.readSleepUsec) && IsU32(t.writeSleepUsec)
  }

  const ZEROED: ThreadConfig := ThreadConfig(0, 0, 0, 0, 0, false, false, false, 0, 0, 0, 0, 0)

  predicate IsPowerOf2(n: nat) {
    n == 1 || (n > 1 && n % 2 == 0 && IsPowerOf2(n / 2))
  }

  predicate InRange(t: ThreadConfig) {
    && 512 <= t.blockSize <= 0x10_0000
    && 512 <= t.offsetStride <= 0x10_0000
    && 1 <= t.queueDepth <= 1024
    && 0 <= t.offsetLow
    && 0 <= t.offsetHigh
    && t.readMixPercent <= 100
    && t.readBurst <= 1024
    && t.writeBurst <= 1024
    && t.readSleepUsec <= 100000
    && t.writeSleepUsec <= 100000
  }

  predicate BurstsUsable(t: ThreadConfig) {
    && (t.readBurst != 0 || t.writeBurst != 0)
    && (t.readMixPercent == 100 ==> t.readBurst != 0)
    && (t.readMixPercent == 0 ==> t.writeBurst != 0)
  }

  /** A C comparison of offset + block size (signed) with the device size (unsigned). */
  predicate Exceeds(offset: int, blockSize: nat, devSize: nat) {
    U64(S64(offset + blockSize)) > devSize
  }

  /** One iteration of the validator: the thread as it is left, and whether it passed. */
  function CheckThread(t: ThreadConfig, devSize: nat): (ThreadConfig, bool) {
    if !InRange(t) || !IsPowerOf2(t.blockSize) || Exceeds(t.offsetLow, t.blockSize, devSize) then (t, false)
    else
      var capped := if Exceeds(t.offsetHigh, t.blockSize, devSize)
                    then t.(offsetHigh := S64(U64(devSize - t.blockSize))) else t;
      (capped, capped.offsetLow < capped.offsetHigh && BurstsUsable(capped))
  }

  /** The validator's loop from thread i on; it stops at the first thread that fails. */
  function CheckThreads(ts: seq<ThreadConfig>, i: nat, devSize: nat): (r: (seq<ThreadConfig>, bool))
    requires i <= |ts|
    ensures |r.0| == |ts|
    decreases |ts| - i
  {
    if i == |ts| then (ts, true)
    else
      var (t, ok) := CheckThread(ts[i], devSize);
      if ok then CheckThreads(ts[i := t], i + 1, devSize) else (ts[i := t], false)
  }

  predicate GlobalsInRange(numThreads: nat, runtimeSeconds: nat, cpus: nat) {
    1 <= numThreads <= cpus && 1 <= runtimeSeconds <= MAX_RUNTIME_SECONDS
  }

  function Validate(ts: seq<ThreadConfig>, runtimeSeconds: nat, cpus: nat, devSize: nat): (seq<ThreadConfig>, bool) {
    if GlobalsInRange(|ts|, runtimeSeconds, cpus) then CheckThreads(ts, 0, devSize) else (ts, false)
  }

  /** The validator as the driver runs it, rewriting the thread array in place. */
  method IsValid(threads: array<ThreadConfig>, runtimeSeconds: nat, cpus: nat, devSize: nat) returns (ok: bool)
    modifies threads
    ensures (threads[..], ok) == Validate(old(threads[..]), runtimeSeconds, cpus, devSize)
  {
    if threads.Length < 1 || threads.Length > cpus { return false; }
    if runtimeSeconds < 1 || runtimeSeconds > MAX_RUNTIME_SECONDS { return false; }
    var i := 0;
    while i < threads.Length
      invariant 0 <= i <= threads.Length
      invariant CheckThreads(threads[..], i, devSize) == CheckThreads(old(threads[..]), 0, devSize)
    {
      ghost var before := threads[..];
      var t := threads[i];
      if !InRange(t) || !IsPowerOf2(t.blockSize) || Exceeds(t.offsetLow, t.blockSize, devSize) {
        assert before[i := t] == before;
        return false;
      }
      if Exceeds(t.offsetHigh, t.blockSize, devSize) {
        t := t.(offsetHigh := S64(U64(devSize - t.blockSize)));
        threads[i] := t;
      }
      assert threads[..] == before[i := t];
      if t.offsetLow >= t.offsetHigh || !BurstsUsable(t) {
        return false;
      }
      i := i + 1;
    }
    return true;
  }

  // ---------- what the validator decides ----------

  function Min(a: int, b: int): int { if a <= b then a else b }

  /** The verdict without machine arithmetic. */
  predicate Acceptable(t: ThreadConfig, devSize: nat) {
    && InRange(t)
    && IsPowerOf2(t.blockSize)
    && t.offsetLow + t.blockSize <= devSize
    && t.offsetLow < Min(t.offsetHigh, devSize - t.blockSize)
    && BurstsUsable(t)
  }

  function Capped(t: ThreadConfig, devSize: nat): ThreadConfig {
    t.(offsetHigh := Min(t.offsetHigh, devSize - t.blockSize))
  }

  /** What every accepted thread satisfies once it has been normalised. */
  predicate Normalised(t: ThreadConfig, devSize: nat) {
    && Acceptable(t, devSize)
    && t.offsetHigh <= devSize - t.blockSize
  }

  /** The wrapping sum of offset and block size compares as the true sum, up to and past LONG_MAX. */
  lemma ExceedsIsExact(offset: int, blockSize: nat, devSize: nat)
    requires 0 <= offset < TWO63 && blockSize <= 0x10_0000
    ensures Exceeds(offset, blockSize, devSize) <==> offset + blockSize > devSize
  {
  }

  /** One iteration without machine arithmetic. */
  function CheckExactly(t: ThreadConfig, devSize: nat): (ThreadConfig, bool) {
    if !InRange(t) || !IsPowerOf2(t.blockSize) || t.offsetLow + t.blockSize > devSize then (t, false)
    else (Capped(t, devSize), Acceptable(t, devSize))
  }

  lemma CheckThreadIsExact(t: ThreadConfig, devSize: nat)
    requires Representable(t) && devSize < TWO63
    ensures CheckThread(t, devSize) == CheckExactly(t, devSize)
  {
    if InRange(t) {
      ExceedsIsExact(t.offsetLow, t.blockSize, devSize);
      ExceedsIsExact(t.offsetHigh, t.blockSize, devSize);
      if t.offsetLow + t.blockSize <= devSize {
        assert S64(U64(devSize - t.blockSize)) == devSize - t.blockSize;
      }
    }
  }

  lemma CheckThreadIdempotent(t: ThreadConfig, devSize: nat)
    requires Representable(t) && devSize < TWO63
    ensures Representable(CheckThread(t, devSize).0)
    ensures CheckThread(CheckThread(t, devSize).0, devSize) == CheckThread(t, devSize)
  {
    CheckThreadIsExact(t, devSize);
    var once := CheckExactly(t, devSize).0;
    assert Representable(once);
    CheckThreadIsExact(once, devSize);
  }

  ghost predicate AllRepresentable(ts: seq<ThreadConfig>) {
    forall k | 0 <= k < |ts| :: Representable(ts[k])
  }

  ghost predicate AllAcceptable(ts: seq<ThreadConfig>, from: nat, devSize: nat) {
    forall k | from <= k < |ts| :: Acceptable(ts[k], devSize)
  }

  /** From a given index on, the threads are the capped versions of the given ones. */
  ghost predicate AllCapped(out: seq<ThreadConfig>, ts: seq<ThreadConfig>, from: nat, devSize: nat) {
    |out| == |ts| && forall k | from <= k < |ts| :: out[k] == Capped(ts[k], devSize)
  }

  /** Each thread is as given or capped. */
  ghost predicate AtMostCapped(out: seq<ThreadConfig>, ts: seq<ThreadConfig>, devSize: nat) {
    |out| == |ts| && forall k | 0 <= k < |ts| :: out[k] == ts[k] || out[k] == Capped(ts[k], devSize)
  }

  lemma {:induction false} CheckThreadsPrefix(ts: seq<ThreadConfig>, i: nat, devSize: nat)
    requires i <= |ts|
    ensures forall k | 0 <= k < i :: CheckThreads(ts, i, devSize).0[k] == ts[k]
    decreases |ts| - i
  {
    if i == |ts| {
    } else {
      var (t, ok) := CheckThread(ts[i], devSize);
      if ok { CheckThreadsPrefix(ts[i := t], i + 1, devSize); }
    }
  }

  lemma CheckThreadVerdict(t: ThreadConfig, devSize: nat)
    requires Representable(t) && devSize < TWO63
    ensures CheckThread(t, devSize).1 <==> Acceptable(t, devSize)
    ensures CheckThread(t, devSize).1 ==> CheckThread(t, devSize).0 == Capped(t, devSize)
    ensures Representable(CheckThread(t, devSize).0)
  {
    CheckThreadIsExact(t, devSize);
    CheckThreadIdempotent(t, devSize);
  }

  lemma AcceptableFrom(ts: seq<ThreadConfig>, t: ThreadConfig, i: nat, devSize: nat)
    requires i < |ts|
    ensures AllAcceptable(ts, i, devSize)
       <==> Acceptable(ts[i], devSize) && AllAcceptable(ts[i := t], i + 1, devSize)
  {
    var us := ts[i := t];
    assert forall k | i + 1 <= k < |ts| :: us[k] == ts[k];
  }

  lemma {:induction false} CheckThreadsVerdict(ts: seq<ThreadConfig>, i: nat, devSize: nat)
    requires i <= |ts| && AllRepresentable(ts) && devSize < TWO63
    ensures CheckThreads(ts, i, devSize).1 <==> AllAcceptable(ts, i, devSize)
    decreases |ts| - i
  {
    if i == |ts| {
    } else {
      CheckThreadVerdict(ts[i], devSize);
      var (t, ok) := CheckThread(ts[i], devSize);
      AcceptableFrom(ts, t, i, devSize);
      if ok {
        CheckThreadsVerdict(ts[i := t], i + 1, devSize);
      }
    }
  }

  lemma {:induction false} CheckThreadsCaps(ts: seq<ThreadConfig>, i: nat, devSize: nat)
    requires i <= |ts| && AllRepresentable(ts) && devSize < TWO63
    ensures CheckThreads(ts, i, devSize).1 ==> AllCapped(CheckThreads(ts, i, devSize).0, ts, i, devSize)
    decreases |ts| - i
  {
    if i == |ts| {
    } else {
      CheckThreadVerdict(ts[i], devSize);
      var (t, ok) := CheckThread(ts[i], devSize);
      if ok {
        CheckThreadsCaps(ts[i := t], i + 1, devSize);
        CheckThreadsPrefix(ts[i := t], i + 1, devSize);
      }
    }
  }

  lemma {:induction false} CheckThreadsTouches(ts: seq<ThreadConfig>, i: nat, devSize: nat)
    requires i <= |ts| && AllRepresentable(ts) && devSize < TWO63
    ensures AllRepresentable(CheckThreads(ts, i, devSize).0)
    ensures AtMostCapped(CheckThreads(ts, i, devSize).0, ts, devSize)
    decreases |ts| - i
  {
    if i == |ts| {
    } else {
      CheckThreadIsExact(ts[i], devSize);
      CheckThreadIdempotent(ts[i], devSize);
      var (t, ok) := CheckThread(ts[i], devSize);
      if ok {
        CheckThreadsTouches(ts[i := t], i + 1, devSize);
        CheckThreadsPrefix(ts[i := t], i + 1, devSize);
      }
    }
  }

  /** A second call repeats the verdict and changes nothing, on acceptance and on rejection. */
  lemma {:induction false} CheckThreadsIdempotent(ts: seq<ThreadConfig>, i: nat, devSize: nat)
    requires i <= |ts| && AllRepresentable(ts) && devSize < TWO63
    ensures CheckThreads(CheckThreads(ts, i, devSize).0, i, devSize) == CheckThreads(ts, i, devSize)
    decreases |ts| - i
  {
    if i == |ts| {
    } else {
      CheckThreadIdempotent(ts[i], devSize);
      var (t, ok) := CheckThread(ts[i], devSize);
      var (out, verdict) := CheckThreads(ts, i, devSize);
      if ok {
        CheckThreadsIdempotent(ts[i := t], i + 1, devSize);
        CheckThreadsPrefix(ts[i := t], i + 1, devSize);
        assert out[i] == t;
        assert out[i := t] == out;
      } else {
        assert out[i := t] == out;
      }
    }
  }

  /** The validator normalises: calling it again is a no-op with the same answer. */
  lemma ValidateIdempotent(ts: seq<ThreadConfig>, runtimeSeconds: nat, cpus: nat, devSize: nat)
    requires AllRepresentable(ts) && devSize < TWO63
    ensures var (out, ok) := Validate(ts, runtimeSeconds, cpus, devSize);
            Validate(out, runtimeSeconds, cpus, devSize) == (out, ok)
  {
    CheckThreadsIdempotent(ts, 0, devSize);
  }

  /**
   The verdict exactly, and what acceptance guarantees of every thread; a rejecting call
   may already have capped some threads, and does nothing else.
   */
  lemma ValidateMeaning(ts: seq<ThreadConfig>, runtimeSeconds: nat, cpus: nat, devSize: nat)
    requires AllRepresentable(ts) && devSize < TWO63
    ensures var (out, ok) := Validate(ts, runtimeSeconds, cpus, devSize);
            && AllRepresentable(out)
            && AtMostCapped(out, ts, devSize)
            && (ok <==> GlobalsInRange(|ts|, runtimeSeconds, cpus) && AllAcceptable(ts, 0, devSize))
            && (ok ==> AllCapped(out, ts, 0, devSize)
                       && forall k | 0 <= k < |out| ::
                            && Normalised(out[k], devSize)
                            && 0 <= out[k].offsetLow < out[k].offsetHigh <= devSize - out[k].blockSize)
  {
    CheckThreadsVerdict(ts, 0, devSize);
    CheckThreadsCaps(ts, 0, devSize);
    CheckThreadsTouches(ts, 0, devSize);
  }
}
