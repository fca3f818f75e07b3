/** Which module states the histories of sysfs operations from module load come to. */
module Reach {
  import opened Common
  import opened Machine
  import opened Config
  import opened Launch
  import opened Lifecycle

  // ---------- building histories ----------

  lemma {:induction false} HistoryAppend(h: Host, m: Module, ops: seq<Op>, op: Op, all: seq<Op>)
    requires IsHistory(h, m, ops) && Enabled(After(h, m, ops), op) && all == ops + [op]
    ensures IsHistory(h, m, all) && After(h, m, all) == Apply(h, After(h, m, ops), op).1
    decreases |ops|
  {
    if ops == [] {
      assert all[0] == op && all[1..] == [];
    } else {
      assert all[0] == ops[0] && all[1..] == ops[1..] + [op];
      HistoryAppend(h, Apply(h, m, ops[0]).1, ops[1..], op, all[1..]);
    }
  }

  ghost predicate Reaches(h: Host, ops: seq<Op>, m: Module) {
    IsHistory(h, INITIAL, ops) && After(h, INITIAL, ops) == m
  }

  lemma Then(h: Host, ops: seq<Op>, m: Module, op: Op) returns (more: seq<Op>)
    requires Reaches(h, ops, m) && Enabled(m, op)
    ensures Reaches(h, more, Apply(h, m, op).1)
  {
    more := ops + [op];
    HistoryAppend(h, INITIAL, ops, op, more);
  }

  // ---------- any configuration can be stored ----------

  const VARS: seq<Var> :=
    [BlockSize, QueueDepth, OffsetRandom, OffsetStride, OffsetLow, OffsetHigh, ReadMixPercent,
     BurstDelay, BurstFinish, ReadBurst, WriteBurst, ReadSleepUsec, WriteSleepUsec]

  /** The first k attributes are those of the target. */
  predicate Agrees(t: ThreadConfig, target: ThreadConfig, k: nat)
    requires k <= |VARS|
  {
    forall i | 0 <= i < k :: ShowVar(t, VARS[i]) == ShowVar(target, VARS[i])
  }

  lemma AgreesFully(t: ThreadConfig, target: ThreadConfig)
    requires Agrees(t, target, |VARS|)
    ensures t == target
  {
    assert VARS[0] == BlockSize;
    assert VARS[1] == QueueDepth;
    assert VARS[2] == OffsetRandom;
    assert VARS[3] == OffsetStride;
    assert VARS[4] == OffsetLow;
    assert VARS[5] == OffsetHigh;
    assert VARS[6] == ReadMixPercent;
    assert VARS[7] == BurstDelay;
    assert VARS[8] == BurstFinish;
    assert VARS[9] == ReadBurst;
    assert VARS[10] == WriteBurst;
    assert VARS[11] == ReadSleepUsec;
    assert VARS[12] == WriteSleepUsec;
  }

  lemma RepresentableFits(t: ThreadConfig, v: Var)
    requires Representable(t)
    ensures Lifecycle.Fits(v, ShowVar(t, v)) && IsS64(ShowVar(t, v))
  {
  }

  lemma StoreNext(t: ThreadConfig, target: ThreadConfig, k: nat)
    requires k < |VARS| && Agrees(t, target, k) && Representable(target)
    ensures IsS64(ShowVar(target, VARS[k]))
    ensures Agrees(SetVar(t, VARS[k], ShowVar(target, VARS[k])), target, k + 1)
  {
    var x := ShowVar(target, VARS[k]);
    RepresentableFits(target, VARS[k]);
    StoreShowRoundTrip(t, VARS[k], x);
    forall i | 0 <= i < k ensures ShowVar(SetVar(t, VARS[k], x), VARS[i]) == ShowVar(target, VARS[i]) {
      Distinct(i, k);
      StoreKeepsOthers(t, VARS[k], x, VARS[i]);
    }
  }

  lemma Distinct(i: nat, k: nat)
    requires i < k < |VARS|
    ensures VARS[i] != VARS[k]
  {
  }

  /** A module that can be configured and has the given threads. */
  function Configured(seconds: nat, ts: seq<ThreadConfig>): Module {
    Module(seconds, |ts|, Some(ts), false, Unlocked)
  }

  /** The first k attributes of one thread can be stored. */
  lemma {:induction false} StoreFields(h: Host, ops: seq<Op>, seconds: nat, ts: seq<ThreadConfig>, tid: nat,
                                      target: ThreadConfig, k: nat)
    returns (more: seq<Op>, t: ThreadConfig)
    requires tid < |ts| && k <= |VARS| && Representable(target) && Reaches(h, ops, Configured(seconds, ts))
    ensures Reaches(h, more, Configured(seconds, ts[tid := t])) && Agrees(t, target, k)
  {
    if k == 0 {
      more, t := ops, ts[tid];
      assert ts[tid := t] == ts;
    } else {
      more, t := StoreFields(h, ops, seconds, ts, tid, target, k - 1);
      var v, x := VARS[k - 1], ShowVar(target, VARS[k - 1]);
      StoreNext(t, target, k - 1);
      more := Then(h, more, Configured(seconds, ts[tid := t]), StoreThreadVar(tid, v, Parsed(x)));
      assert ts[tid := t][tid := SetVar(t, v, x)] == ts[tid := SetVar(t, v, x)];
      t := SetVar(t, v, x);
    }
  }

  lemma StoreThread(h: Host, ops: seq<Op>, seconds: nat, ts: seq<ThreadConfig>, tid: nat,
                   target: ThreadConfig)
    returns (more: seq<Op>)
    requires tid < |ts| && Representable(target) && Reaches(h, ops, Configured(seconds, ts))
    ensures Reaches(h, more, Configured(seconds, ts[tid := target]))
  {
    var t;
    more, t := StoreFields(h, ops, seconds, ts, tid, target, |VARS|);
    AgreesFully(t, target);
  }

  /** The first n threads can be given any configuration. */
  lemma {:induction false} StoreThreads(h: Host, ops: seq<Op>, seconds: nat, ts: seq<ThreadConfig>,
                                       targets: seq<ThreadConfig>, n: nat)
    returns (more: seq<Op>)
    requires n <= |ts| == |targets| && AllRepresentable(targets) && Reaches(h, ops, Configured(seconds, ts))
    ensures Reaches(h, more, Configured(seconds, targets[..n] + ts[n..]))
  {
    if n == 0 {
      more := ops;
      assert targets[..0] + ts[0..] == ts;
    } else {
      more := StoreThreads(h, ops, seconds, ts, targets, n - 1);
      var now := targets[..n - 1] + ts[n - 1..];
      more := StoreThread(h, more, seconds, now, n - 1, targets[n - 1]);
      assert now[n - 1 := targets[n - 1]] == targets[..n] + ts[n..];
    }
  }

  /** Any representable configuration, acceptable or not, can be stored. */
  lemma Configure(h: Host, seconds: nat, ts: seq<ThreadConfig>) returns (ops: seq<Op>)
    requires 1 <= |ts| <= h.cpus && 1 <= seconds <= MAX_RUNTIME_SECONDS && AllRepresentable(ts)
    ensures Reaches(h, ops, Configured(seconds, ts))
  {
    var n, zeroed := |ts|, seq(|ts|, _ => ZEROED);
    ops := Then(h, [], INITIAL, StoreRuntimeSeconds(seconds));
    ops := Then(h, ops, INITIAL.(runtimeSeconds := seconds), StoreNumThreads(n, true, 0));
    ops := StoreThreads(h, ops, seconds, zeroed, ts, n);
    assert ts[..n] + zeroed[n..] == ts;
  }

  // ---------- the runs that are reached ----------

  lemma NormalisedStays(h: Host, seconds: nat, ts: seq<ThreadConfig>)
    requires h.devSize < TWO63 && AllRepresentable(ts) && GlobalsInRange(|ts|, seconds, h.cpus)
    requires forall k | 0 <= k < |ts| :: Normalised(ts[k], h.devSize)
    ensures Validate(ts, seconds, h.cpus, h.devSize) == (ts, true)
  {
    ValidateMeaning(ts, seconds, h.cpus, h.devSize);
    var out := Validate(ts, seconds, h.cpus, h.devSize).0;
    assert forall k | 0 <= k < |ts| :: out[k] == Capped(ts[k], h.devSize) == ts[k];
    assert out == ts;
  }

  /** A run in progress as the validator lets it through. */
  ghost predicate IsRunInProgress(h: Host, m: Module) {
    && m.phase == Running && m.running
    && ReadyToRun(h, m)
    && |m.threads.value| == m.numThreads && AllRepresentable(m.threads.value)
  }

  lemma StartRun(h: Host, m: Module) returns (ops: seq<Op>)
    requires h.devSize < TWO63 && IsRunInProgress(h, m)
    ensures Reaches(h, ops, m)
  {
    var ts := m.threads.value;
    ops := Configure(h, m.runtimeSeconds, ts);
    NormalisedStays(h, m.runtimeSeconds, ts);
    ops := Then(h, ops, Configured(m.runtimeSeconds, ts), EnterRun);
  }

  /** The runs that histories from module load come to are exactly those of validated 4096-byte configurations. */
  lemma RunningExactly(h: Host, m: Module)
    requires h.devSize < TWO63 && m.phase == Running
    ensures (exists ops :: Reaches(h, ops, m)) <==> IsRunInProgress(h, m)
  {
    if IsRunInProgress(h, m) {
      var ops := StartRun(h, m);
      assert Reaches(h, ops, m);
    }
    if ops :| Reaches(h, ops, m) {
      HistoryKeepsSound(h, INITIAL, ops);
    }
  }

  // ---------- on which hosts ----------

  /** A processor, and a device that holds more than one block of 4096 bytes. */
  predicate Usable(h: Host) { h.cpus >= 1 && h.devSize > 4096 }

  /** A thread that reads the whole device one block after the other, with as many I/Os in flight as there may be. */
  function Reader(devSize: nat): ThreadConfig {
    ThreadConfig(0, devSize - 4096, 4096, 1024, 4096, false, false, false, 100, 1, 0, 0, 0)
  }

  lemma ReaderAcceptable(devSize: nat)
    requires 4096 < devSize < TWO63
    ensures Representable(Reader(devSize)) && Normalised(Reader(devSize), devSize)
  {
    assert IsPowerOf2(2) && IsPowerOf2(4) && IsPowerOf2(8) && IsPowerOf2(16) && IsPowerOf2(32) && IsPowerOf2(64);
    assert IsPowerOf2(128) && IsPowerOf2(256) && IsPowerOf2(512) && IsPowerOf2(1024) && IsPowerOf2(2048);
  }

  function ReaderRun(h: Host): Module {
    Module(1, 1, Some([Reader(h.devSize)]), true, Running)
  }

  lemma ReaderRuns(h: Host) returns (ops: seq<Op>)
    requires Usable(h) && h.devSize < TWO63
    ensures Reaches(h, ops, ReaderRun(h))
  {
    ReaderAcceptable(h.devSize);
    ops := StartRun(h, ReaderRun(h));
  }

  /** Threads, the flag and a run all need a host that has what they need. */
  ghost predicate NeedsHost(h: Host, m: Module) {
    && (m.numThreads != 0 ==> h.cpus >= 1)
    && (m.running || m.phase != Unlocked ==> Usable(h))
  }

  lemma StepNeedsHost(h: Host, m: Module, op: Op)
    requires h.devSize < TWO63 && Sound(h, m) && Enabled(m, op) && NeedsHost(h, m)
    ensures NeedsHost(h, Apply(h, m, op).1)
  {
    StepKeepsSound(h, m, op);
    var next := Apply(h, m, op).1;
    if next.phase == Running {
      assert Normalised(next.threads.value[0], h.devSize) && next.threads.value[0].blockSize == 4096;
    }
  }

  lemma {:induction false} HistoryNeedsHost(h: Host, m: Module, ops: seq<Op>)
    requires h.devSize < TWO63 && Sound(h, m) && IsHistory(h, m, ops) && NeedsHost(h, m)
    ensures NeedsHost(h, After(h, m, ops))
    decreases |ops|
  {
    if ops == [] {
    } else {
      StepKeepsSound(h, m, ops[0]);
      StepNeedsHost(h, m, ops[0]);
      HistoryNeedsHost(h, Apply(h, m, ops[0]).1, ops[1..]);
    }
  }

  /** A history after which the phase is the given one. */
  ghost predicate ReachesPhase(h: Host, ops: seq<Op>, phase: Phase) {
    IsHistory(h, INITIAL, ops) && After(h, INITIAL, ops).phase == phase
  }

  ghost predicate ReachesWedged(h: Host, ops: seq<Op>) { IsHistory(h, INITIAL, ops) && Wedged(After(h, INITIAL, ops)) }

  ghost predicate ReachesStranded(h: Host, ops: seq<Op>) { IsHistory(h, INITIAL, ops) && Stranded(After(h, INITIAL, ops)) }

  /** Runs, and reports of runs, are reached from module load exactly on usable hosts. */
  lemma RunsExactly(h: Host)
    requires h.devSize < TWO63
    ensures (exists ops :: ReachesPhase(h, ops, Running)) <==> Usable(h)
    ensures (exists ops :: ReachesPhase(h, ops, Reporting)) <==> Usable(h)
  {
    if Usable(h) {
      var ops := ReaderRuns(h);
      assert ReachesPhase(h, ops, Running);
      ops := Then(h, ops, ReaderRun(h), ReturnFromRun(Answers(true, [0], false)));
      assert ReachesPhase(h, ops, Reporting);
    }
    if ops :| ReachesPhase(h, ops, Running) { HistoryNeedsHost(h, INITIAL, ops); }
    if ops :| ReachesPhase(h, ops, Reporting) { HistoryNeedsHost(h, INITIAL, ops); }
  }

  /** On the same hosts, and only there, a history leaves the running flag set for good. */
  lemma WedgesExactly(h: Host)
    requires h.devSize < TWO63
    ensures (exists ops :: ReachesWedged(h, ops)) <==> Usable(h)
  {
    if Usable(h) {
      var ops := ReaderRuns(h);
      ops := Then(h, ops, ReaderRun(h), ReturnFromRun(Answers(false, [0], false)));
      assert ReachesWedged(h, ops);
    }
    if ops :| ReachesWedged(h, ops) { HistoryNeedsHost(h, INITIAL, ops); }
  }

  /** A history strands the module on every host with a processor. */
  lemma StrandsExactly(h: Host)
    requires h.devSize < TWO63
    ensures (exists ops :: ReachesStranded(h, ops)) <==> h.cpus >= 1
  {
    if h.cpus >= 1 {
      var ops := Then(h, [], INITIAL, StoreNumThreads(1, true, -ENOMEM));
      assert ReachesStranded(h, ops);
    }
    if ops :| ReachesStranded(h, ops) { HistoryNeedsHost(h, INITIAL, ops); }
  }
}
