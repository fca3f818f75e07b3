/**
 The sysfs operations of driver/kio_config.c around one run of driver/kio_run.c.

 A history is a sequence of atomic operations.  Storing num_threads, runtime_seconds or
 run_workload takes the configuration mutex; storing a thread attribute does not.  A run
 holds the mutex from entry to return: while it is Running the kio_running flag is set;
 while it is Reporting the flag has been cleared and, unless the run failed, the
 statistics are being printed.
 */
module Lifecycle {
  import opened Common
  import opened Machine
  import opened Config
  import opened Launch

  datatype Var =
    | BlockSize | QueueDepth | OffsetRandom | OffsetStride | OffsetLow | OffsetHigh | ReadMixPercent
    | BurstDelay | BurstFinish | ReadBurst | WriteBurst | ReadSleepUsec | WriteSleepUsec

  /** Assigning a long to a field keeps only the bits that the field has. */
  function SetVar(t: ThreadConfig, v: Var, x: int): ThreadConfig {
    match v
    case BlockSize => t.(blockSize := U32(x))
    case QueueDepth => t.(queueDepth := U32(x))
    case OffsetRandom => t.(offsetRandom := x % 2 == 1)
    case OffsetStride => t.(offsetStride := S32(x))
    case OffsetLow => t.(offsetLow := S64(x))
    case OffsetHigh => t.(offsetHigh := S64(x))
    case ReadMixPercent => t.(readMixPercent := U8(x))
    case BurstDelay => t.(burstDelay := x % 2 == 1)
    case BurstFinish => t.(burstFinish := x % 2 == 1)
    case ReadBurst => t.(readBurst := U32(x))
    case WriteBurst => t.(writeBurst := U32(x))
    case ReadSleepUsec => t.(readSleepUsec := U32(x))
    case WriteSleepUsec => t.(writeSleepUsec := U32(x))
  }

  function Bit(b: bool): int { if b then 1 else 0 }

  function ShowVar(t: ThreadConfig, v: Var): int {
    match v
    case BlockSize => t.blockSize
    case QueueDepth => t.queueDepth
    case OffsetRandom => Bit(t.offsetRandom)
    case OffsetStride => t.offsetStride
    case OffsetLow => t.offsetLow
    case OffsetHigh => t.offsetHigh
    case ReadMixPercent => t.readMixPercent
    case BurstDelay => Bit(t.burstDelay)
    case BurstFinish => Bit(t.burstFinish)
    case ReadBurst => t.readBurst
    case WriteBurst => t.writeBurst
    case ReadSleepUsec => t.readSleepUsec
    case WriteSleepUsec => t.writeSleepUsec
  }

  /** The values a field can hold. */
  predicate Fits(v: Var, x: int) {
    match v
    case OffsetRandom | BurstDelay | BurstFinish => 0 <= x < 2
    case OffsetStride => -TWO31 <= x < TWO31
    case OffsetLow | OffsetHigh => IsS64(x)
    case ReadMixPercent => 0 <= x < 256
    case _ => IsU32(x)
  }

  /** A value that is stored is shown again exactly when the field can hold it. */
  lemma StoreShowRoundTrip(t: ThreadConfig, v: Var, x: int)
    requires IsS64(x)
    ensures ShowVar(SetVar(t, v, x), v) == x <==> Fits(v, x)
  {
    match v { case _ => }
  }

  /** A store leaves the other fields alone. */
  lemma StoreKeepsOthers(t: ThreadConfig, v: Var, x: int, w: Var)
    ensures w != v ==> ShowVar(SetVar(t, v, x), w) == ShowVar(t, w)
  {
    match v { case _ => }
  }

  lemma StoreKeepsRepresentable(t: ThreadConfig, v: Var, x: int)
    requires Representable(t)
    ensures Representable(SetVar(t, v, x))
  {
    match v { case _ => }
  }

  // ---------- the state and its operations ----------

  datatype Phase = Unlocked | Running | Reporting

  datatype Module = Module(
    runtimeSeconds: nat,
    numThreads: nat,
    threads: Option<seq<ThreadConfig>>,
    running: bool,
    phase: Phase)

  const INITIAL: Module := Module(0, 0, None, false, Unlocked)

  /** The machine a history runs on. */
  datatype Host = Host(cpus: nat, devSize: nat)

  datatype Number = Parsed(x: int) | Malformed(errno: int)

  datatype Op =
    | StoreNumThreads(n: int, memory: bool, creationError: int)
    | StoreRuntimeSeconds(seconds: int)
    | StoreThreadVar(tid: nat, v: Var, number: Number)
    | EnterRun
    | ReturnFromRun(answers: Answers)
    | FinishReport

  predicate IsStore(op: Op) {
    op.StoreNumThreads? || op.StoreRuntimeSeconds? || op.StoreThreadVar? || op.EnterRun?
  }

  predicate Enabled(m: Module, op: Op) {
    match op
    case StoreThreadVar(_, _, number) => number.Parsed? ==> IsS64(number.x)
    case ReturnFromRun(answers) => m.phase == Running && |answers.starts| == m.numThreads
    case FinishReport => m.phase == Reporting
    case _ => m.phase == Unlocked
  }

  predicate AllBlocks4096(ts: seq<ThreadConfig>) {
    forall k | 0 <= k < |ts| :: ts[k].blockSize == 4096
  }

  /** The result of an operation, zero standing for success, and the state it leaves. */
  function Apply(h: Host, m: Module, op: Op): (int, Module)
    requires Enabled(m, op)
  {
    match op
    case StoreNumThreads(n, memory, creationError) =>
      if m.running then (-EBUSY, m)
      else if m.numThreads != 0 || m.threads.Some? then (-EEXIST, m)
      else if n < 1 || n > h.cpus then (-EINVAL, m)
      else if !memory then (-ENOMEM, m)
      else if creationError != 0 then (creationError, m.(numThreads := n))
      else (0, m.(numThreads := n, threads := Some(seq(n, _ => ZEROED))))
    case StoreRuntimeSeconds(seconds) =>
      if m.running then (-EBUSY, m)
      else if seconds < 1 || seconds > MAX_RUNTIME_SECONDS then (-EOVERFLOW, m)
      else (0, m.(runtimeSeconds := seconds))
    case StoreThreadVar(tid, v, number) =>
      if m.running then (-EBUSY, m)
      else if m.threads.None? || tid >= |m.threads.value| then (-ENODEV, m)
      else if number.Malformed? then (number.errno, m)
      else (0, m.(threads := Some(m.threads.value[tid := SetVar(m.threads.value[tid], v, number.x)])))
    case EnterRun =>
      if m.running then (-EBUSY, m)
      else if m.numThreads == 0 || m.threads.None? then (-ECHILD, m)
      else
        var (ts, ok) := Validate(m.threads.value, m.runtimeSeconds, h.cpus, h.devSize);
        var checked := m.(threads := Some(ts));
        if !ok then (-ENOEXEC, checked)
        else if !AllBlocks4096(ts) then (0, checked)
        else (0, checked.(running := true, phase := Running))
    case ReturnFromRun(answers) =>
      var ending := EndOfRun(answers);
      if ending.flagLeft then (ending.result, m.(phase := Unlocked))
      else (ending.result, m.(running := false, phase := Reporting))
    case FinishReport => (0, m.(phase := Unlocked))
  }

  /** The driver's global configuration, updated in place by the store functions. */
  class KioConfig {
    const host: Host
    var runtimeSeconds: nat
    var numThreads: nat
    var threads: array?<ThreadConfig>
    var running: bool
    ghost var phase: Phase

    constructor (host: Host)
      ensures this.host == host && Snapshot() == INITIAL
    {
      this.host := host;
      runtimeSeconds, numThreads, threads, running, phase := 0, 0, null, false, Unlocked;
    }

    ghost function Snapshot(): Module
      reads this, threads
    {
      Module(runtimeSeconds, numThreads, if threads == null then None else Some(threads[..]), running, phase)
    }

    method StoreNumThreads(n: int, memory: bool, creationError: int) returns (result: int)
      requires phase == Unlocked
      modifies this
      ensures (result, Snapshot()) == Apply(host, old(Snapshot()), Op.StoreNumThreads(n, memory, creationError))
      ensures threads == old(threads) || fresh(threads)
    {
      if running { return -EBUSY; }
      if numThreads != 0 || threads != null { return -EEXIST; }
      if n < 1 || n > host.cpus { return -EINVAL; }
      if !memory { return -ENOMEM; }
      threads := new ThreadConfig[n](_ => ZEROED);
      numThreads := n;
      assert threads[..] == seq(n, _ => ZEROED);
      if creationError != 0 {
        threads := null;
        return creationError;
      }
      return 0;
    }

    method StoreRuntimeSeconds(seconds: int) returns (result: int)
      requires phase == Unlocked
      modifies this`runtimeSeconds
      ensures (result, Snapshot()) == Apply(host, old(Snapshot()), Op.StoreRuntimeSeconds(seconds))
    {
      if running { return -EBUSY; }
      if seconds < 1 || seconds > MAX_RUNTIME_SECONDS { return -EOVERFLOW; }
      runtimeSeconds := seconds;
      return 0;
    }

    method StoreThreadVar(tid: nat, v: Var, number: Number) returns (result: int)
      requires number.Parsed? ==> IsS64(number.x)
      modifies threads
      ensures (result, Snapshot()) == Apply(host, old(Snapshot()), Op.StoreThreadVar(tid, v, number))
    {
      if running { return -EBUSY; }
      if threads == null || tid >= threads.Length { return -ENODEV; }
      if number.Malformed? { return number.errno; }
      threads[tid] := SetVar(threads[tid], v, number.x);
      assert threads[..] == old(threads[..])[tid := SetVar(old(threads[..])[tid], v, number.x)];
      return 0;
    }

    /** The part of storing run_workload up to the moment the run starts, or is refused. */
    method EnterRun() returns (result: int)
      requires phase == Unlocked
      modifies this, threads
      ensures (result, Snapshot()) == Apply(host, old(Snapshot()), Op.EnterRun)
      ensures threads == old(threads)
    {
      if running { return -EBUSY; }
      if numThreads == 0 || threads == null { return -ECHILD; }
      var ok := IsValid(threads, runtimeSeconds, host.cpus, host.devSize);
      if !ok { return -ENOEXEC; }
      var i := 0;
      while i < threads.Length
        invariant 0 <= i <= threads.Length
        invariant forall k | 0 <= k < i :: threads[k].blockSize == 4096
      {
        if threads[i].blockSize != 4096 {
          assert threads[..][i].blockSize != 4096;
          return 0;
        }
        i := i + 1;
      }
      running := true;
      phase := Running;
      return 0;
    }

    /** The rest of kio_run: the flag is cleared only if it gets as far as stopping its threads. */
    method FinishRun(answers: Answers) returns (result: int, stopped: seq<nat>)
      requires phase == Running && |answers.starts| == numThreads
      modifies this`running, this`phase
      ensures (result, Snapshot()) == Apply(host, old(Snapshot()), Op.ReturnFromRun(answers))
      ensures stopped == EndOfRun(answers).stopped
    {
      var ending := KioRun(answers);
      result, stopped := ending.result, ending.stopped;
      if ending.flagLeft {
        phase := Unlocked;
      } else {
        running := false;
        phase := Reporting;
      }
    }
  }

  ghost predicate IsHistory(h: Host, m: Module, ops: seq<Op>)
    decreases |ops|
  {
    ops == [] || (Enabled(m, ops[0]) && IsHistory(h, Apply(h, m, ops[0]).1, ops[1..]))
  }

  ghost function After(h: Host, m: Module, ops: seq<Op>): Module
    requires IsHistory(h, m, ops)
    decreases |ops|
  {
    if ops == [] then m else After(h, Apply(h, m, ops[0]).1, ops[1..])
  }

  /** What each operation of a history returns. */
  ghost function Results(h: Host, m: Module, ops: seq<Op>): (rs: seq<int>)
    requires IsHistory(h, m, ops)
    ensures |rs| == |ops|
    decreases |ops|
  {
    if ops == [] then []
    else var (result, next) := Apply(h, m, ops[0]); [result] + Results(h, next, ops[1..])
  }

  /** How often num_threads changes along a history. */
  ghost function Changes(h: Host, m: Module, ops: seq<Op>): nat
    requires IsHistory(h, m, ops)
    decreases |ops|
  {
    if ops == [] then 0
    else
      var next := Apply(h, m, ops[0]).1;
      (if next.numThreads != m.numThreads then 1 else 0) + Changes(h, next, ops[1..])
  }

  // ---------- what every operation keeps ----------

  ghost predicate Sound(h: Host, m: Module) {
    && (m.threads.Some? ==> |m.threads.value| == m.numThreads > 0 && AllRepresentable(m.threads.value))
    && (m.phase == Running ==> m.running && ReadyToRun(h, m))
    && (m.phase == Reporting ==> !m.running)
  }

  /** A live thread array that the validator has accepted and normalised, all of 4096-byte blocks. */
  ghost predicate ReadyToRun(h: Host, m: Module) {
    && m.threads.Some?
    && GlobalsInRange(m.numThreads, m.runtimeSeconds, h.cpus)
    && (forall k | 0 <= k < |m.threads.value| ::
          Normalised(m.threads.value[k], h.devSize) && m.threads.value[k].blockSize == 4096)
  }

  lemma StepKeepsSound(h: Host, m: Module, op: Op)
    requires h.devSize < TWO63 && Sound(h, m) && Enabled(m, op)
    ensures Sound(h, Apply(h, m, op).1)
  {
    match op
    case EnterRun =>
      if !m.running && m.threads.Some? {
        ValidateMeaning(m.threads.value, m.runtimeSeconds, h.cpus, h.devSize);
      }
    case StoreThreadVar(tid, v, number) =>
      if !m.running && m.threads.Some? && tid < m.numThreads && number.Parsed? {
        StoreKeepsRepresentable(m.threads.value[tid], v, number.x);
      }
    case _ =>
  }

  lemma {:induction false} HistoryKeepsSound(h: Host, m: Module, ops: seq<Op>)
    requires h.devSize < TWO63 && Sound(h, m) && IsHistory(h, m, ops)
    ensures Sound(h, After(h, m, ops))
    decreases |ops|
  {
    if ops == [] {
    } else {
      StepKeepsSound(h, m, ops[0]);
      HistoryKeepsSound(h, Apply(h, m, ops[0]).1, ops[1..]);
    }
  }

  /** In every history from module load, a run in progress has a live, validated thread array. */
  lemma RunsOnlyWhenReady(h: Host, ops: seq<Op>)
    requires h.devSize < TWO63 && IsHistory(h, INITIAL, ops)
    ensures var m := After(h, INITIAL, ops);
            m.phase == Running ==> m.running && ReadyToRun(h, m)
  {
    HistoryKeepsSound(h, INITIAL, ops);
  }

  /** num_threads changes at most once in any history, and never once it is set. */
  lemma {:induction false} NumThreadsChangesOnce(h: Host, m: Module, ops: seq<Op>)
    requires IsHistory(h, m, ops)
    ensures Changes(h, m, ops) <= if m.numThreads == 0 then 1 else 0
    ensures m.numThreads != 0 ==> After(h, m, ops).numThreads == m.numThreads
    decreases |ops|
  {
    if ops == [] {
    } else {
      NumThreadsChangesOnce(h, Apply(h, m, ops[0]).1, ops[1..]);
    }
  }

  /** While kio_running is set every store is refused and nothing alters the configuration. */
  lemma FrozenWhileRunning(h: Host, m: Module, op: Op)
    requires m.running && Enabled(m, op)
    ensures IsStore(op) ==> Apply(h, m, op) == (-EBUSY, m)
    ensures var next := Apply(h, m, op).1;
            next.threads == m.threads && next.numThreads == m.numThreads && next.runtimeSeconds == m.runtimeSeconds
  {
    match op { case _ => }
  }

  // ---------- the two returns that leave the flag set ----------

  /** kio_running set although no run is in progress. */
  predicate Wedged(m: Module) { m.running && m.phase == Unlocked }

  /** The flag is left behind exactly by a run whose workers cannot be allocated or whose first thread cannot be started. */
  lemma WedgedExactlyBy(h: Host, m: Module, op: Op)
    requires h.devSize < TWO63 && Sound(h, m) && Enabled(m, op) && !Wedged(m)
    ensures Wedged(Apply(h, m, op).1)
       <==> op.ReturnFromRun? && (!op.answers.memory || IsError(op.answers.starts[0]))
  {
    if op.ReturnFromRun? { FlagLeftExactly(op.answers); }
  }

  /** Once left behind, it stays: the state never changes again and every store fails with -EBUSY. */
  lemma {:induction false} WedgedForever(h: Host, m: Module, ops: seq<Op>)
    requires Wedged(m) && IsHistory(h, m, ops)
    ensures After(h, m, ops) == m
    ensures forall k | 0 <= k < |ops| :: IsStore(ops[k]) && Results(h, m, ops)[k] == -EBUSY
    decreases |ops|
  {
    if ops == [] {
    } else {
      assert Apply(h, m, ops[0]) == (-EBUSY, m);
      WedgedForever(h, m, ops[1..]);
    }
  }

  // ---------- a failed thread creation ----------

  /** A thread directory could not be created: num_threads stays set although the array is gone. */
  predicate Stranded(m: Module) { m.numThreads != 0 && m.threads.None? && !m.running && m.phase == Unlocked }

  /** A stranded module can neither be configured again nor run. */
  lemma {:induction false} StrandedForever(h: Host, m: Module, ops: seq<Op>)
    requires Stranded(m) && IsHistory(h, m, ops)
    ensures Stranded(After(h, m, ops))
    ensures forall k | 0 <= k < |ops| ::
              && (ops[k].EnterRun? ==> Results(h, m, ops)[k] == -ECHILD)
              && (ops[k].StoreNumThreads? ==> Results(h, m, ops)[k] == -EEXIST)
    decreases |ops|
  {
    if ops == [] {
    } else {
      StrandedForever(h, Apply(h, m, ops[0]).1, ops[1..]);
    }
  }

  /** Only a failed thread creation strands the module. */
  lemma StrandedExactlyBy(h: Host, m: Module, op: Op)
    requires h.devSize < TWO63 && Sound(h, m) && Enabled(m, op) && m.numThreads == 0 && !m.running
    ensures Stranded(Apply(h, m, op).1)
       <==> op.StoreNumThreads? && 1 <= op.n <= h.cpus && op.memory && op.creationError != 0
  {
    match op { case _ => }
  }

  // ---------- the reporting window ----------

  /** From entry until the flag is cleared the configuration stays the validated one. */
  lemma {:induction false} ConfigurationHeldDuringRun(h: Host, m: Module, ops: seq<Op>)
    requires m.phase == Running && m.running && IsHistory(h, m, ops)
    requires forall k | 0 <= k < |ops| :: !ops[k].ReturnFromRun?
    ensures After(h, m, ops) == m
    decreases |ops|
  {
    if ops == [] {
    } else {
      assert ops[0].StoreThreadVar?;
      ConfigurationHeldDuringRun(h, m, ops[1..]);
    }
  }

  /**
   While the statistics are printed the flag is already clear, so a thread attribute can
   change under them: a store is refused there exactly for a missing thread or a malformed number.
   */
  lemma StoreDuringReport(h: Host, m: Module, tid: nat, v: Var, number: Number)
    requires Sound(h, m) && m.phase == Reporting && m.threads.Some?
    requires number.Parsed? ==> IsS64(number.x)
    requires number.Malformed? ==> number.errno < 0
    ensures var (result, next) := Apply(h, m, StoreThreadVar(tid, v, number));
            && (result == 0 <==> tid < m.numThreads && number.Parsed?)
            && (result != 0 ==> next == m)
            && (result == 0 ==> next.threads.value[tid] == SetVar(m.threads.value[tid], v, number.x))
            && (result == 0 && Fits(v, number.x) ==> ShowVar(next.threads.value[tid], v) == number.x)
  {
    if number.Parsed? && tid < m.numThreads {
      StoreShowRoundTrip(m.threads.value[tid], v, number.x);
    }
  }
}
