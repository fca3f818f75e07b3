/**
 Safety of whole runs of the protocol: the queue-depth bound, the isolation of bursts, and
 the validity of every offset submitted.
 */
module Bounds {
  import opened Machine
  import opened Common
  import opened Config
  import opened Direction
  import opened Protocol
  import opened Accounting
  import Offset

  // ---------- queue depth ----------

  /** Past the throttle and not yet dispatched. */
  predicate Admitted(pc: Pc) {
    pc == ThrottleStop || pc == Allocate || HoldsPage(pc)
  }

  predicate BeforeThrottle(pc: Pc) { pc == Top || pc == Throttle || pc == ThrottleWait }

  ghost predicate DepthBounded(env: Env, s: State) {
    var q := env.t.queueDepth;
    q > 0 ==>
      if BeforeThrottle(s.pc) then s.dispatched <= q
      else if Admitted(s.pc) then s.dispatched < q || (s.signal && s.dispatched <= q)
      else s.dispatched <= q || (s.signal && s.dispatched <= q + 1)
  }

  lemma StepKeepsDepth(env: Env, s: State, l: Label)
    requires Enabled(env, s, l) && DepthBounded(env, s)
    ensures DepthBounded(env, Step(env, s, l))
  {
  }

  lemma {:induction false} RunKeepsDepth(env: Env, s: State, ls: seq<Label>)
    requires IsRun(env, s, ls) && DepthBounded(env, s)
    ensures DepthBounded(env, After(env, s, ls))
    decreases |ls|
  {
    if ls == [] {
    } else {
      StepKeepsDepth(env, s, ls[0]);
      RunKeepsDepth(env, Step(env, s, ls[0]), ls[1..]);
    }
  }

  /**
   No run dispatches more than queue_depth I/Os at once, as long as no signal is pending; a
   signal lets one more through, and no more than one, since the loop then ends.
   */
  lemma QueueDepth(env: Env, s0: State, ls: seq<Label>)
    requires Initial(s0) && IsRun(env, s0, ls) && env.t.queueDepth > 0
    ensures var s := After(env, s0, ls);
            s.dispatched <= env.t.queueDepth + (if s.signal then 1 else 0)
  {
    RunKeepsDepth(env, s0, ls);
  }

  // ---------- directions ----------

  predicate Chosen(pc: Pc) { pc == DrainWait || pc == DrainStop || pc == Dispatch }

  /** The direction of the current burst; a workload that does not mix has one burst, number zero. */
  predicate CurrentlyWrites(env: Env, s: State) {
    if Mixed(env.t) then s.bursts.wasWrite else env.t.readMixPercent < 1
  }

  /** I/Os of one burst go in one direction. */
  ghost predicate BurstsUniform(env: Env, s: State) {
    && (if Mixed(env.t) then Coherent(s.bursts) else s.bursts.read == s.bursts.write == 0)
    && (Chosen(s.pc) ==> s.dir.isWrite == CurrentlyWrites(env, s))
    && (forall k | 0 <= k < |s.ios| :: s.ios[k].burst <= s.burst)
    && (forall k | 0 <= k < |s.ios| && s.ios[k].burst == s.burst :: s.ios[k].isWrite == CurrentlyWrites(env, s))
    && (forall j, k | 0 <= j < |s.ios| && 0 <= k < |s.ios| && s.ios[j].burst == s.ios[k].burst ::
          s.ios[j].isWrite == s.ios[k].isWrite)
  }

  lemma ChooseKeepsUniform(env: Env, s: State, inputs: Inputs)
    requires s.pc == Choose && BurstsUniform(env, s)
    ensures BurstsUniform(env, ChooseStep(env, s, inputs))
  {
    if Mixed(env.t) { StepPaysBurst(env.t, s.bursts, inputs.rnd); }
  }

  lemma MoveKeepsUniform(env: Env, s: State)
    requires IsMove(s.pc) && BurstsUniform(env, s)
    ensures BurstsUniform(env, MoveStep(env, s))
  {
  }

  lemma PageKeepsUniform(env: Env, s: State, inputs: Inputs)
    requires BurstsUniform(env, s)
    ensures s.pc == Allocate ==> BurstsUniform(env, AllocateStep(s, inputs))
    ensures s.pc == DrainStop && s.frees != [] ==> BurstsUniform(env, DrainStopStep(s))
  {
  }

  lemma DispatchKeepsUniform(env: Env, s: State)
    requires s.pc == Dispatch && BurstsUniform(env, s)
    ensures BurstsUniform(env, DispatchStep(s))
  {
  }

  lemma SubmitKeepsUniform(env: Env, s: State, inputs: Inputs)
    requires s.pc == Submit && s.ios != [] && BurstsUniform(env, s)
    ensures BurstsUniform(env, SubmitStep(env, s, inputs))
  {
  }

  lemma HandleKeepsUniform(env: Env, s: State, k: nat)
    requires k < |s.ios| && InHandler(s.ios[k].stage) && BurstsUniform(env, s)
    ensures BurstsUniform(env, HandleStep(s, k))
  {
  }

  lemma WorkKeepsUniform(env: Env, s: State, inputs: Inputs)
    requires Enabled(env, s, Work(inputs)) && BurstsUniform(env, s)
    ensures BurstsUniform(env, WorkStep(env, s, inputs))
  {
    if s.pc == Choose { ChooseKeepsUniform(env, s, inputs); }
    else if s.pc == Dispatch { DispatchKeepsUniform(env, s); }
    else if s.pc == Submit { SubmitKeepsUniform(env, s, inputs); }
    else if IsMove(s.pc) { MoveKeepsUniform(env, s); }
    else { PageKeepsUniform(env, s, inputs); }
  }

  lemma StepKeepsUniform(env: Env, s: State, l: Label)
    requires Enabled(env, s, l) && BurstsUniform(env, s)
    ensures BurstsUniform(env, Step(env, s, l))
  {
    match l
    case Work(inputs) => WorkKeepsUniform(env, s, inputs);
    case Handle(k) => HandleKeepsUniform(env, s, k);
    case _ =>
  }

  // ---------- burst isolation ----------

  /** The burst that every outstanding I/O belongs to: the current one, or the one being drained. */
  function InFlightBurst(s: State): int { if s.pc == DrainWait then s.burst - 1 else s.burst }

  ghost predicate Isolated(env: Env, s: State) {
    env.t.burstFinish && !s.signal ==>
      forall k | 0 <= k < |s.ios| && Outstanding(s.ios[k]) == 1 :: s.ios[k].burst == InFlightBurst(s)
  }

  lemma NoneOutstanding(s: State)
    requires CountersAgree(s) && s.dispatched == 0
    ensures forall k | 0 <= k < |s.ios| :: Outstanding(s.ios[k]) == 0
  {
    SumBounds(s.ios, Outstanding);
  }

  lemma WorkKeepsIsolated(env: Env, s: State, inputs: Inputs)
    requires Enabled(env, s, Work(inputs)) && Sound(s) && Isolated(env, s)
    ensures Isolated(env, WorkStep(env, s, inputs))
  {
    if s.dispatched == 0 { NoneOutstanding(s); }
  }

  lemma HandleKeepsIsolated(env: Env, s: State, k: nat)
    requires k < |s.ios| && InHandler(s.ios[k].stage) && Isolated(env, s)
    ensures Isolated(env, HandleStep(s, k))
  {
  }

  lemma StepKeepsIsolated(env: Env, s: State, l: Label)
    requires Enabled(env, s, l) && Sound(s) && Isolated(env, s)
    ensures Isolated(env, Step(env, s, l))
  {
    match l
    case Work(inputs) => WorkKeepsIsolated(env, s, inputs);
    case Handle(k) => HandleKeepsIsolated(env, s, k);
    case _ =>
  }

  lemma {:induction false} RunKeepsIsolated(env: Env, s: State, ls: seq<Label>)
    requires IsRun(env, s, ls) && Sound(s) && BurstsUniform(env, s) && Isolated(env, s)
    ensures BurstsUniform(env, After(env, s, ls)) && Isolated(env, After(env, s, ls))
    decreases |ls|
  {
    if ls == [] {
    } else {
      StepKeepsSound(env, s, ls[0]);
      StepKeepsUniform(env, s, ls[0]);
      StepKeepsIsolated(env, s, ls[0]);
      RunKeepsIsolated(env, Step(env, s, ls[0]), ls[1..]);
    }
  }

  /**
   With burst_finish and no signal pending, any two I/Os that count as dispatched belong to
   the same burst and go in the same direction, in every interleaving of worker and handlers.
   */
  lemma BurstIsolation(env: Env, s0: State, ls: seq<Label>, j: nat, k: nat)
    requires Initial(s0) && IsRun(env, s0, ls)
    requires env.t.burstFinish && !After(env, s0, ls).signal
    requires j < |After(env, s0, ls).ios| && k < |After(env, s0, ls).ios|
    requires Outstanding(After(env, s0, ls).ios[j]) == 1 && Outstanding(After(env, s0, ls).ios[k]) == 1
    ensures After(env, s0, ls).ios[j].burst == After(env, s0, ls).ios[k].burst
    ensures After(env, s0, ls).ios[j].isWrite == After(env, s0, ls).ios[k].isWrite
  {
    RunKeepsIsolated(env, s0, ls);
  }

  /** A workload of one direction never starts a burst. */
  ghost predicate Unmixed(env: Env, s: State) {
    s.bursts.read == s.bursts.write == 0 && s.burst == 0 && s.pc != DrainWait
  }

  lemma StepKeepsUnmixed(env: Env, s: State, l: Label)
    requires !Mixed(env.t) && Enabled(env, s, l) && Unmixed(env, s)
    ensures Unmixed(env, Step(env, s, l))
  {
  }

  lemma {:induction false} RunKeepsUnmixed(env: Env, s: State, ls: seq<Label>)
    requires !Mixed(env.t) && IsRun(env, s, ls) && Unmixed(env, s)
    ensures Unmixed(env, After(env, s, ls))
    decreases |ls|
  {
    if ls == [] {
    } else {
      StepKeepsUnmixed(env, s, ls[0]);
      RunKeepsUnmixed(env, Step(env, s, ls[0]), ls[1..]);
    }
  }

  // ---------- offsets ----------

  /** A thread the validator has accepted and kio_run has let through, on a usable device. */
  predicate Accepted(env: Env) {
    && Normalised(env.t, env.devSize) && env.t.blockSize == PAGE_SIZE
    && env.devSize < TWO63 && env.devBlock > 0
  }

  predicate ValidOffset(env: Env, off: int) {
    && env.devBlock > 0
    && 0 <= off <= env.devSize - PAGE_SIZE
    && Offset.OffsetIsValid(off, PAGE_SIZE, env.devSize, env.devBlock)
  }

  ghost predicate OffsetsValid(env: Env, s: State) {
    && Offset.Fits(env.t, env.devSize, s.next)
    && (Chosen(s.pc) || s.pc == Submit ==> ValidOffset(env, s.offset))
    && (forall k | 0 <= k < |s.ios| :: ValidOffset(env, s.ios[k].offset))
    && s.result != -EINVAL
  }

  lemma ChooseKeepsOffsets(env: Env, s: State, inputs: Inputs)
    requires Accepted(env) && s.pc == Choose && OffsetsValid(env, s)
    ensures OffsetsValid(env, ChooseStep(env, s, inputs))
  {
    Offset.OffsetSafety(env.t, env.devSize, env.devBlock, s.next, inputs.lo, inputs.hi);
  }

  lemma WorkKeepsOffsets(env: Env, s: State, inputs: Inputs)
    requires Accepted(env) && Enabled(env, s, Work(inputs)) && OffsetsValid(env, s)
    ensures OffsetsValid(env, WorkStep(env, s, inputs))
  {
    if s.pc == Choose { ChooseKeepsOffsets(env, s, inputs); }
  }

  lemma HandleKeepsOffsets(env: Env, s: State, k: nat)
    requires k < |s.ios| && InHandler(s.ios[k].stage) && OffsetsValid(env, s)
    ensures OffsetsValid(env, HandleStep(s, k))
  {
  }

  lemma StepKeepsOffsets(env: Env, s: State, l: Label)
    requires Accepted(env) && Enabled(env, s, l) && OffsetsValid(env, s)
    ensures OffsetsValid(env, Step(env, s, l))
  {
    match l
    case Work(inputs) => WorkKeepsOffsets(env, s, inputs);
    case Handle(k) => HandleKeepsOffsets(env, s, k);
    case _ =>
  }

  lemma {:induction false} RunKeepsOffsets(env: Env, s: State, ls: seq<Label>)
    requires Accepted(env) && IsRun(env, s, ls) && OffsetsValid(env, s)
    ensures OffsetsValid(env, After(env, s, ls))
    decreases |ls|
  {
    if ls == [] {
    } else {
      StepKeepsOffsets(env, s, ls[0]);
      RunKeepsOffsets(env, Step(env, s, ls[0]), ls[1..]);
    }
  }

  /**
   Offset safety of whole runs: whatever the random words, mode and interleaving, every I/O
   of an accepted thread lies inside the device on a block boundary, and no submission is
   ever refused for its offset.
   */
  lemma EveryOffsetValid(env: Env, s0: State, ls: seq<Label>)
    requires Accepted(env) && Initial(s0) && IsRun(env, s0, ls)
    ensures var s := After(env, s0, ls);
            && (forall k | 0 <= k < |s.ios| :: ValidOffset(env, s.ios[k].offset))
            && s.result != -EINVAL
  {
    RunKeepsOffsets(env, s0, ls);
  }

  /** Without a queue depth nothing is ever too busy, and the throttle lets the worker through. */
  lemma NoDepthNoThrottle(env: Env, s: State)
    requires env.t.queueDepth == 0 && s.pc == Throttle
    ensures MoveStep(env, s).pc == Allocate
  {
  }
}
